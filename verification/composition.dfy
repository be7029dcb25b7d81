/** The composition engine: scaffold reservoirs (0-junctions) are created
    from domain descriptors, then each component model is cloned into the
    unified model and its ports are wired to reservoirs by strict ontology
    matching, with a keyword fallback. The engine is a state record — the
    unified model, the reservoirs in registration order, the log buffer and
    the next unused fresh id — threaded through `create_scaffold` and
    `add_component`. */
module Composition {
  import opened Wrappers
  import opened Strings
  import opened Seqs
  import opened Assoc
  import opened MathML
  import opened BondGraph

  /** The physics id of the electrical domain. */
  const Electrical := "OPB:00592"

  datatype Reservoir = Reservoir(nodeId: NodeId, name: string, semantics: Semantics)

  /** `next` indexes the supply of fresh ids that stands for `uuid4()`. */
  datatype Engine = Engine(model: Model, reservoirs: seq<Reservoir>, log: seq<string>, next: nat)

  const Initial := Engine(Model("Unified_Cell_Model", "System", [], []), [], [], 0)

  /** A scaffold domain descriptor; each field is `None` when the key is absent. */
  datatype Domain = Domain(
    id: Option<string>,
    physicsId: Option<string>,
    entityId: Option<string>,
    locationId: Option<string>,
    entityLabel: Option<string>,
    locationLabel: Option<string>)

  /** The engine's invariant: every fresh id drawn so far is a node, the
      k-th node holding the k-th id, and every bond end and every
      reservoir's junction is one of those ids. */
  predicate Valid(e: Engine) {
    && |e.model.nodes| == e.next
    && (forall i :: 0 <= i < |e.model.nodes| ==> e.model.nodes[i].0 == Fresh(i) && e.model.nodes[i].1.id == Fresh(i))
    && (forall k :: 0 <= k < |e.model.bonds| ==> IdIn(e.model.bonds[k].source, 0, e.next) && IdIn(e.model.bonds[k].target, 0, e.next))
    && (forall j :: 0 <= j < |e.reservoirs| ==> IdIn(e.reservoirs[j].nodeId, 0, e.next))
  }

  /** An id not yet drawn is not a node. */
  lemma NotYetDrawn(e: Engine, k: nat)
    requires Valid(e) && e.next <= k
    ensures !HasKey(e.model.nodes, Fresh(k))
  {
    assert forall i :: 0 <= i < |e.model.nodes| ==> e.model.nodes[i].0 != Fresh(k);
  }

  /** In a valid engine the k-th id finds the k-th node. */
  lemma ValidGet(e: Engine, k: nat)
    requires Valid(e) && k < e.next
    ensures Get(e.model.nodes, Fresh(k)) == Some(e.model.nodes[k].1)
  {
    assert UniqueKeys(e.model.nodes);
    GetAt(e.model.nodes, k);
  }

  /** In a valid engine the unified model is keyed by id, no bond dangles,
      and every reservoir's junction is a node. */
  lemma ValidIsWellFormed(e: Engine)
    requires Valid(e)
    ensures KeyedById(e.model)
    ensures forall k :: 0 <= k < |e.model.bonds| ==> HasKey(e.model.nodes, e.model.bonds[k].source) && HasKey(e.model.nodes, e.model.bonds[k].target)
    ensures forall j :: 0 <= j < |e.reservoirs| ==> HasKey(e.model.nodes, e.reservoirs[j].nodeId)
  {
    forall k | 0 <= k < |e.model.bonds| ensures HasKey(e.model.nodes, e.model.bonds[k].source) && HasKey(e.model.nodes, e.model.bonds[k].target) {
      assert e.model.nodes[e.model.bonds[k].source.k].0 == e.model.bonds[k].source;
      assert e.model.nodes[e.model.bonds[k].target.k].0 == e.model.bonds[k].target;
    }
    forall j | 0 <= j < |e.reservoirs| ensures HasKey(e.model.nodes, e.reservoirs[j].nodeId) {
      assert e.model.nodes[e.reservoirs[j].nodeId.k].0 == e.reservoirs[j].nodeId;
    }
  }

  /** Python's f-string rendering of an optional string. */
  function Show(s: Option<string>): string {
    if s.Some? then s.value else "None"
  }

  // ---------------------------------------------------------------------
  // Scaffold
  // ---------------------------------------------------------------------

  /** A reservoir's semantics: the ids as given, the labels defaulting to
      "Unknown". */
  function DomainSemantics(d: Domain): Semantics {
    Semantics(d.physicsId, d.entityId, d.locationId, Some(d.entityLabel.GetOr("Unknown")), Some(d.locationLabel.GetOr("Unknown")))
  }

  /** A domain's name: its id, or "Scaffold_" and eight hex digits of a
      fresh uuid (`hex`). */
  function DomainName(d: Domain, hex: string): string {
    d.id.GetOr("Scaffold_" + hex)
  }

  function JunctionNode(id: NodeId, name: string, sem: Semantics): BGNode {
    BGNode(id, name, "0_junction", [], JunctionMeta(name, sem), [], [], [], [])
  }

  /** The junction entry the k-th descriptor of a scaffold call adds. */
  function JunctionEntry(d: Domain, k: nat, hex: nat -> string): (NodeId, BGNode) {
    (Fresh(k), JunctionNode(Fresh(k), DomainName(d, hex(k)), DomainSemantics(d)))
  }

  function JunctionEntries(ds: seq<Domain>, next: nat, hex: nat -> string): (es: Assoc<NodeId, BGNode>)
    ensures |es| == |ds|
    decreases |ds|
  {
    if |ds| == 0 then [] else [JunctionEntry(ds[0], next, hex)] + JunctionEntries(ds[1..], next + 1, hex)
  }

  /** The i-th descriptor's junction is the i-th entry, with id `next + i`. */
  lemma {:induction false} JunctionEntriesAt(ds: seq<Domain>, next: nat, hex: nat -> string, i: nat)
    requires i < |ds|
    ensures JunctionEntries(ds, next, hex)[i] == JunctionEntry(ds[i], next + i, hex)
    decreases |ds|
  {
    if i > 0 {
      JunctionEntriesAt(ds[1..], next + 1, hex, i - 1);
    }
  }

  /** The reservoir the k-th descriptor of a scaffold call registers. */
  function ReservoirOf(d: Domain, k: nat, hex: nat -> string): Reservoir {
    Reservoir(Fresh(k), DomainName(d, hex(k)), DomainSemantics(d))
  }

  function ReservoirsOf(ds: seq<Domain>, next: nat, hex: nat -> string): (rs: seq<Reservoir>)
    ensures |rs| == |ds|
    decreases |ds|
  {
    if |ds| == 0 then [] else [ReservoirOf(ds[0], next, hex)] + ReservoirsOf(ds[1..], next + 1, hex)
  }

  /** The i-th descriptor registers the i-th reservoir, with id `next + i`. */
  lemma {:induction false} ReservoirsOfAt(ds: seq<Domain>, next: nat, hex: nat -> string, i: nat)
    requires i < |ds|
    ensures ReservoirsOf(ds, next, hex)[i] == ReservoirOf(ds[i], next + i, hex)
    decreases |ds|
  {
    if i > 0 {
      ReservoirsOfAt(ds[1..], next + 1, hex, i - 1);
    }
  }

  const ScaffoldHeader := "   [Composition] Building Ontology Scaffold..."

  function CreatedMessage(name: string, sem: Semantics): string {
    "      -> Created Reservoir: " + name + " (" + Show(sem.entityLabel) + " @ " + Show(sem.locationLabel) + ")"
  }

  /** One descriptor: a junction node with the next fresh id, and its
      reservoir. `hex(k)` stands for the uuid drawn with the k-th id. */
  function AddReservoir(e: Engine, d: Domain, hex: nat -> string): (r: Engine)
    ensures r.next == e.next + 1 && r.model.bonds == e.model.bonds
    ensures r.reservoirs == e.reservoirs + [ReservoirOf(d, e.next, hex)]
    ensures r.log == e.log + [CreatedMessage(DomainName(d, hex(e.next)), DomainSemantics(d))]
    ensures Valid(e) ==> Valid(r) && r.model.nodes == e.model.nodes + [JunctionEntry(d, e.next, hex)]
  {
    var name := DomainName(d, hex(e.next));
    var sem := DomainSemantics(d);
    var node := JunctionNode(Fresh(e.next), name, sem);
    var r := Engine(AddNode(e.model, node), e.reservoirs + [Reservoir(node.id, name, sem)], e.log + [CreatedMessage(name, sem)], e.next + 1);
    assert Valid(e) ==> r.model.nodes == e.model.nodes + [JunctionEntry(d, e.next, hex)] by {
      if Valid(e) {
        NotYetDrawn(e, e.next);
      }
    }
    r
  }

  function AddReservoirs(e: Engine, ds: seq<Domain>, hex: nat -> string): (r: Engine)
    ensures r.next == e.next + |ds| && r.model.bonds == e.model.bonds
    ensures r.reservoirs == e.reservoirs + ReservoirsOf(ds, e.next, hex)
    ensures |r.log| == |e.log| + |ds| && r.log[..|e.log|] == e.log
    decreases |ds|
  {
    if |ds| == 0 then
      assert e.reservoirs + [] == e.reservoirs;
      e
    else
      var e1 := AddReservoir(e, ds[0], hex);
      var r := AddReservoirs(e1, ds[1..], hex);
      AppendAssoc(e.reservoirs, [ReservoirOf(ds[0], e.next, hex)], ReservoirsOf(ds[1..], e.next + 1, hex));
      assert r.log[..|e.log|] == r.log[..|e1.log|][..|e.log|];
      r
  }

  /** Registering descriptors keeps the engine valid and appends one
      junction per descriptor, in order. */
  lemma {:induction false} AddReservoirsValid(e: Engine, ds: seq<Domain>, hex: nat -> string)
    requires Valid(e)
    ensures Valid(AddReservoirs(e, ds, hex))
    ensures AddReservoirs(e, ds, hex).model.nodes == e.model.nodes + JunctionEntries(ds, e.next, hex)
    decreases |ds|
  {
    if |ds| == 0 {
      assert e.model.nodes + [] == e.model.nodes;
    } else {
      var e1 := AddReservoir(e, ds[0], hex);
      AddReservoirsValid(e1, ds[1..], hex);
      AppendAssoc(e.model.nodes, [JunctionEntry(ds[0], e.next, hex)], JunctionEntries(ds[1..], e.next + 1, hex));
    }
  }

  /** `create_scaffold`: one "0_junction" node and one reservoir per
      descriptor, in order; each reservoir's node id is its junction's id. */
  function CreateScaffold(e: Engine, ds: seq<Domain>, hex: nat -> string): (r: Engine)
    ensures r.next == e.next + |ds| && r.model.bonds == e.model.bonds
    ensures r.reservoirs == e.reservoirs + ReservoirsOf(ds, e.next, hex)
    ensures |r.log| == |e.log| + 1 + |ds| && r.log[..|e.log| + 1] == e.log + [ScaffoldHeader]
    ensures Valid(e) ==> Valid(r) && r.model.nodes == e.model.nodes + JunctionEntries(ds, e.next, hex)
  {
    var e1 := e.(log := e.log + [ScaffoldHeader]);
    assert Valid(e) ==> Valid(AddReservoirs(e1, ds, hex)) && AddReservoirs(e1, ds, hex).model.nodes == e.model.nodes + JunctionEntries(ds, e.next, hex) by {
      if Valid(e) {
        AddReservoirsValid(e1, ds, hex);
      }
    }
    AddReservoirs(e1, ds, hex)
  }

  /** The i-th scaffold reservoir is the i-th descriptor's, with the i-th
      fresh id. */
  lemma ScaffoldReservoir(e: Engine, ds: seq<Domain>, hex: nat -> string, i: nat)
    requires i < |ds|
    ensures CreateScaffold(e, ds, hex).reservoirs[|e.reservoirs| + i] == ReservoirOf(ds[i], e.next + i, hex)
  {
    var rs := ReservoirsOf(ds, e.next, hex);
    assert CreateScaffold(e, ds, hex).reservoirs[|e.reservoirs| + i] == rs[i];
    ReservoirsOfAt(ds, e.next, hex, i);
  }

  /** In a valid engine whose nodes end with `js`, the id of the i-th of
      them finds its node. */
  lemma JunctionAt(r: Engine, base: Assoc<NodeId, BGNode>, js: Assoc<NodeId, BGNode>, i: nat)
    requires Valid(r) && r.model.nodes == base + js && i < |js|
    ensures Get(r.model.nodes, Fresh(|base| + i)) == Some(js[i].1)
  {
    assert r.model.nodes[|base| + i] == js[i];
    ValidGet(r, |base| + i);
  }

  /** The i-th fresh id of a scaffold call finds the i-th descriptor's
      junction node. */
  lemma ScaffoldJunction(e: Engine, ds: seq<Domain>, hex: nat -> string, i: nat)
    requires Valid(e) && i < |ds|
    ensures Get(CreateScaffold(e, ds, hex).model.nodes, Fresh(e.next + i)) == Some(JunctionEntry(ds[i], e.next + i, hex).1)
  {
    JunctionEntriesAt(ds, e.next, hex, i);
    JunctionAt(CreateScaffold(e, ds, hex), e.model.nodes, JunctionEntries(ds, e.next, hex), i);
  }

  /** A scaffold reservoir is named after the descriptor's id, or
      `Scaffold_<hex>` without one; its semantics carries the descriptor's
      ids and labels, with "Unknown" for a missing label; and its junction
      node, under the i-th fresh id, carries the same semantics under the
      reservoir's name. */
  lemma ScaffoldContents(e: Engine, ds: seq<Domain>, hex: nat -> string, i: nat)
    requires Valid(e) && i < |ds|
    ensures var r := CreateScaffold(e, ds, hex);
      var res := r.reservoirs[|e.reservoirs| + i];
      && res.semantics.physicsId == ds[i].physicsId
      && res.semantics.entityId == ds[i].entityId
      && res.semantics.locationId == ds[i].locationId
      && (ds[i].entityLabel.None? ==> res.semantics.entityLabel == Some("Unknown"))
      && (ds[i].locationLabel.None? ==> res.semantics.locationLabel == Some("Unknown"))
      && (ds[i].entityLabel.Some? ==> res.semantics.entityLabel == ds[i].entityLabel)
      && (ds[i].locationLabel.Some? ==> res.semantics.locationLabel == ds[i].locationLabel)
      && (ds[i].id.Some? ==> res.name == ds[i].id.value)
      && (ds[i].id.None? ==> res.name == "Scaffold_" + hex(e.next + i))
      && res.nodeId == Fresh(e.next + i)
      && Get(r.model.nodes, res.nodeId) == Some(BGNode(res.nodeId, res.name, "0_junction", [], JunctionMeta(res.name, res.semantics), [], [], [], []))
  {
    ScaffoldReservoir(e, ds, hex, i);
    ScaffoldJunction(e, ds, hex, i);
  }

  // ---------------------------------------------------------------------
  // Cloning a component
  // ---------------------------------------------------------------------

  /** A clone keeps every field of the source node but its id and name. */
  function Clone(n: BGNode, instanceId: string, id: NodeId): BGNode {
    n.(id := id, name := instanceId + "_" + n.name)
  }

  /** The clones of a component's nodes, in order, each named after its
      instance and given the next fresh id. */
  function Clones(src: seq<BGNode>, instanceId: string, next: nat): (cs: seq<BGNode>)
    ensures |cs| == |src| && forall i :: 0 <= i < |src| ==> cs[i] == Clone(src[i], instanceId, Fresh(next + i))
    ensures forall i :: 0 <= i < |src| ==>
      && cs[i].name == instanceId + "_" + src[i].name && cs[i].id == Fresh(next + i)
      && cs[i].kind == src[i].kind && cs[i].parameters == src[i].parameters && cs[i].metadata == src[i].metadata
      && cs[i].ports == src[i].ports && cs[i].variables == src[i].variables
      && cs[i].constitutiveLaws == src[i].constitutiveLaws && cs[i].systemProperties == src[i].systemProperties
    ensures forall i, j :: 0 <= i < j < |cs| ==> cs[i].id != cs[j].id
  {
    seq(|src|, i requires 0 <= i < |src| => Clone(src[i], instanceId, Fresh(next + i)))
  }

  /** `id_map[node.id] = new_node.id` for each source node in turn. */
  function IdMap(src: seq<BGNode>, next: nat): Assoc<NodeId, NodeId> {
    PutAll([], IdPairs(src, next))
  }

  function IdPairs(src: seq<BGNode>, next: nat): (kvs: seq<(NodeId, NodeId)>)
    ensures |kvs| == |src| && forall i :: 0 <= i < |src| ==> kvs[i] == (src[i].id, Fresh(next + i))
  {
    seq(|src|, i requires 0 <= i < |src| => (src[i].id, Fresh(next + i)))
  }

  /** The id map knows exactly the source ids, and sends each to one of
      the clones' ids. */
  lemma IdMapDomain(src: seq<BGNode>, next: nat, id: NodeId)
    ensures HasKey(IdMap(src, next), id) <==> exists i :: 0 <= i < |src| && src[i].id == id
    ensures Get(IdMap(src, next), id).Some? ==> IdIn(Get(IdMap(src, next), id).value, next, |src|)
  {
    var kvs := IdPairs(src, next);
    IdMapFrom(kvs, id);
    assert (exists i :: 0 <= i < |kvs| && kvs[i].0 == id) <==> exists i :: 0 <= i < |src| && src[i].id == id;
    var g := Get(IdMap(src, next), id);
    if g.Some? {
      var i :| 0 <= i < |kvs| && kvs[i] == (id, g.value);
      assert g.value == Fresh(next + i);
    }
  }

  lemma IdMapFrom(kvs: seq<(NodeId, NodeId)>, id: NodeId)
    ensures HasKey(PutAll([], kvs), id) <==> exists i :: 0 <= i < |kvs| && kvs[i].0 == id
    ensures Get(PutAll([], kvs), id).Some? ==> exists i :: 0 <= i < |kvs| && kvs[i] == (id, Get(PutAll([], kvs), id).value)
  {
    var m: Assoc<NodeId, NodeId> := [];
    var r := PutAll(m, kvs);
    PutAllFrom(m, kvs, id);
    assert m + kvs == kvs;
    assert !HasKey(m, id);
    var g := Get(r, id);
    if g.Some? {
      assert (id, g.value) in kvs;
      var i :| 0 <= i < |kvs| && kvs[i] == (id, g.value);
    }
  }

  /** With distinct source ids, each source node maps to its own clone. */
  lemma IdMapOfDistinct(src: seq<BGNode>, next: nat, i: nat)
    requires i < |src| && forall a, b :: 0 <= a < b < |src| ==> src[a].id != src[b].id
    ensures Get(IdMap(src, next), src[i].id) == Some(Fresh(next + i))
  {
    var kvs := IdPairs(src, next);
    assert [] + kvs == kvs;
    PutAllFresh([], kvs);
    GetAt(kvs, i);
  }

  /** An internal bond is cloned when both its ends are in the id map. */
  function CloneBond(idMap: Assoc<NodeId, NodeId>, b: BGBond): seq<BGBond> {
    match (Get(idMap, b.source), Get(idMap, b.target))
    case (Some(s), Some(t)) => [BGBond(s, t, b.causalStroke, b.metadata)]
    case _ => []
  }

  function CloneBonds(idMap: Assoc<NodeId, NodeId>, bonds: seq<BGBond>): seq<BGBond> {
    FlatMap(b => CloneBond(idMap, b), bonds)
  }

  /** A bond is in the cloned list iff it is the image of a source bond
      whose two ends are mapped, with the same causal stroke and metadata. */
  lemma CloneBondsExact(idMap: Assoc<NodeId, NodeId>, bonds: seq<BGBond>, c: BGBond)
    ensures c in CloneBonds(idMap, bonds) <==>
      exists k :: 0 <= k < |bonds| && HasKey(idMap, bonds[k].source) && HasKey(idMap, bonds[k].target)
        && c == BGBond(Get(idMap, bonds[k].source).value, Get(idMap, bonds[k].target).value, bonds[k].causalStroke, bonds[k].metadata)
  {
    FlatMapIn(b => CloneBond(idMap, b), bonds, c);
  }

  /** Every cloned bond joins two clones. */
  lemma CloneBondsEnds(src: seq<BGNode>, next: nat, bonds: seq<BGBond>)
    ensures forall k :: 0 <= k < |CloneBonds(IdMap(src, next), bonds)| ==>
      IdIn(CloneBonds(IdMap(src, next), bonds)[k].source, next, |src|) && IdIn(CloneBonds(IdMap(src, next), bonds)[k].target, next, |src|)
  {
    var idMap := IdMap(src, next);
    var P := (c: BGBond) => IdIn(c.source, next, |src|) && IdIn(c.target, next, |src|);
    forall k, i | 0 <= k < |bonds| && 0 <= i < |CloneBond(idMap, bonds[k])| ensures P(CloneBond(idMap, bonds[k])[i]) {
      IdMapDomain(src, next, bonds[k].source);
      IdMapDomain(src, next, bonds[k].target);
    }
    FlatMapAll(b => CloneBond(idMap, b), bonds, P);
  }

  // ---------------------------------------------------------------------
  // Port-variable resolution
  // ---------------------------------------------------------------------

  /** `n.metadata.get('structured_equations', [])`. */
  function Structured(n: BGNode): seq<Equation> {
    if n.metadata.ComponentMeta? then n.metadata.structured else []
  }

  /** `computes_var(n, v)`: a falsy name is computed by no node. */
  predicate Computes(n: BGNode, v: Option<string>) {
    Truthy(v) && exists k :: 0 <= k < |Structured(n)| && Structured(n)[k].lhs == v.value
  }

  /** The deep search: the first clone computing `v`. */
  function DeepSearch(clones: seq<BGNode>, v: Option<string>): (r: Option<nat>)
    ensures r.Some? ==> r.value < |clones| && Computes(clones[r.value], v) && forall j :: 0 <= j < r.value ==> !Computes(clones[j], v)
    ensures r.None? <==> forall j :: 0 <= j < |clones| ==> !Computes(clones[j], v)
  {
    Find(clones, n => Computes(n, v))
  }

  /** The flow variable of a port, by priority: the `variable` of a `flow`
      dictionary (possibly absent), else the legacy `variable`, else the
      port key. */
  function FlowVariable(key: string, def: PortDef): Option<string> {
    match def.flow
    case Some(FlowObject(v)) => v
    case _ => if def.variable.Some? then def.variable.value else Some(key)
  }

  predicate IsFluxName(cv: string) {
    IsPrefix("I_", cv) || IsPrefix("i_", cv) || IsPrefix("v_", cv) || IsPrefix("J_", cv)
  }

  predicate IsCurrentName(cv: string) {
    |cv| > 0 && (cv[0] == 'I' || cv[0] == 'i')
  }

  /** A port whose key names the electrical domain. */
  predicate IsElectricalPort(key: string) {
    var k := Lower(key);
    Contains(k, "voltage") || Contains(k, "electrical") || Contains(k, "membrane")
  }

  /** `n` has a non-ODE structured equation with left side `cv` that looks
      like a flux. */
  predicate IsFluxOf(n: BGNode, cv: string) {
    exists k :: 0 <= k < |Structured(n)| && Structured(n)[k].kind != Ode && IsFluxName(Structured(n)[k].lhs) && Structured(n)[k].lhs == cv
  }

  function Fluxes(n: BGNode, eqs: seq<Equation>): (r: seq<(BGNode, string)>)
    ensures forall c :: c in r <==>
      c.0 == n && exists k :: 0 <= k < |eqs| && eqs[k].kind != Ode && IsFluxName(eqs[k].lhs) && eqs[k].lhs == c.1
    decreases |eqs|
  {
    if |eqs| == 0 then []
    else
      var rest := Fluxes(n, eqs[1..]);
      assert forall k :: 1 <= k < |eqs| ==> eqs[k] == eqs[1..][k - 1];
      (if eqs[0].kind != Ode && IsFluxName(eqs[0].lhs) then [(n, eqs[0].lhs)] else []) + rest
  }

  /** The heuristic's candidate list: (clone, flux name) pairs in clone
      order, then equation order. */
  function Candidates(clones: seq<BGNode>): (r: seq<(BGNode, string)>)
    ensures forall c :: c in r <==> exists i :: 0 <= i < |clones| && c.0 == clones[i] && IsFluxOf(clones[i], c.1)
    decreases |clones|
  {
    if |clones| == 0 then []
    else
      var rest := Candidates(clones[1..]);
      assert forall i :: 1 <= i < |clones| ==> clones[i] == clones[1..][i - 1];
      Fluxes(clones[0], Structured(clones[0])) + rest
  }

  /** Where a port's variable is computed: the node, the variable name,
      and whether a computation was found. */
  datatype Located = Located(node: BGNode, variable: Option<string>, found: bool)

  /** Deep search, then on a miss the prefix heuristic: an electrical port
      takes the first current-like candidate or none, any other port the
      first candidate. Without a find, the port-definition node and the
      flow variable stand. */
  function Locate(clones: seq<BGNode>, pdn: BGNode, key: string, v: Option<string>): (r: Located)
    ensures r.node == pdn || r.node in clones
    ensures !r.found ==> r.node == pdn && r.variable == v
    ensures DeepSearch(clones, v).Some? ==> r == Located(clones[DeepSearch(clones, v).value], v, true)
    ensures DeepSearch(clones, v).None? && r.found ==>
      && r.variable.Some? && IsFluxName(r.variable.value)
      && exists i :: 0 <= i < |clones| && r.node == clones[i] && IsFluxOf(clones[i], r.variable.value)
    ensures DeepSearch(clones, v).None? && IsElectricalPort(key) ==>
      && (r.found ==> IsCurrentName(r.variable.value))
      && (r.found <==> exists c :: c in Candidates(clones) && IsCurrentName(c.1))
    ensures DeepSearch(clones, v).None? && IsElectricalPort(key) && r.found ==>
      exists j :: 0 <= j < |Candidates(clones)| && (r.node, r.variable.value) == Candidates(clones)[j]
        && IsCurrentName(Candidates(clones)[j].1)
        && forall j' :: 0 <= j' < j ==> !IsCurrentName(Candidates(clones)[j'].1)
    ensures DeepSearch(clones, v).None? && !IsElectricalPort(key) ==>
      (r.found <==> |Candidates(clones)| > 0) && (r.found ==> (r.node, r.variable.value) == Candidates(clones)[0])
  {
    match DeepSearch(clones, v)
    case Some(i) => Located(clones[i], v, true)
    case None =>
      var cands := Candidates(clones);
      if |cands| == 0 then Located(pdn, v, false)
      else if IsElectricalPort(key) then
        match FirstCurrent(cands)
        case Some(j) =>
          assert cands[j] in cands;
          FluxOfIsFluxName(cands[j].0, cands[j].1);
          Located(cands[j].0, Some(cands[j].1), true)
        case None =>
          Located(pdn, v, false)
      else
        assert cands[0] in cands;
        FluxOfIsFluxName(cands[0].0, cands[0].1);
        Located(cands[0].0, Some(cands[0].1), true)
  }

  /** `elec_cands[0]`: the position of the first current-like candidate. */
  function FirstCurrent(cands: seq<(BGNode, string)>): (r: Option<nat>)
    ensures r.Some? ==> r.value < |cands| && IsCurrentName(cands[r.value].1)
    ensures r.Some? ==> forall j :: 0 <= j < r.value ==> !IsCurrentName(cands[j].1)
    ensures r.None? <==> forall j :: 0 <= j < |cands| ==> !IsCurrentName(cands[j].1)
  {
    Find(cands, (c: (BGNode, string)) => IsCurrentName(c.1))
  }

  lemma FluxOfIsFluxName(n: BGNode, cv: string)
    requires IsFluxOf(n, cv)
    ensures IsFluxName(cv)
  {
  }

  // ---------------------------------------------------------------------
  // Matching
  // ---------------------------------------------------------------------

  /** The string "null" stands for an absent entity. */
  function Entity(id: Option<string>): Option<string> {
    if id == Some("null") then None else id
  }

  /** The strict compatibility test of one reservoir: physics and location
      conflict only when both sides are present; entities must agree,
      except that on the electrical physics they only need to agree when
      both are present. */
  predicate Compatible(port: Semantics, res: Semantics) {
    var pe := Entity(port.entityId);
    var re := Entity(res.entityId);
    && !(Truthy(port.physicsId) && Truthy(res.physicsId) && port.physicsId != res.physicsId)
    && !(Truthy(port.locationId) && Truthy(res.locationId) && port.locationId != res.locationId)
    && (if port.physicsId == Some(Electrical) then !(Truthy(pe) && Truthy(re) && pe != re) else pe == re)
  }

  /** `_find_compatible_reservoir`: nothing without a physics id, otherwise
      the first compatible reservoir in registration order. */
  function FindCompatible(rs: seq<Reservoir>, port: Semantics): (r: Option<nat>)
    ensures r.Some? ==>
      && r.value < |rs| && Truthy(port.physicsId) && Compatible(port, rs[r.value].semantics)
      && forall j :: 0 <= j < r.value ==> !Compatible(port, rs[j].semantics)
    ensures r.None? <==> !Truthy(port.physicsId) || forall j :: 0 <= j < |rs| ==> !Compatible(port, rs[j].semantics)
  {
    if !Truthy(port.physicsId) then None else Find(rs, (res: Reservoir) => Compatible(port, res.semantics))
  }

  /** "null" and an absent entity are the same to the strict matcher, on
      either side. */
  lemma NullEntityIsAbsent(port: Semantics, res: Semantics)
    ensures Compatible(port.(entityId := Some("null")), res) == Compatible(port.(entityId := None), res)
    ensures Compatible(port, res.(entityId := Some("null"))) == Compatible(port, res.(entityId := None))
  {
  }

  /** On the electrical physics, a port or reservoir without an entity
      matches whenever physics and location do not conflict. */
  lemma ElectricalIgnoresMissingEntity(port: Semantics, res: Semantics)
    requires port.physicsId == Some(Electrical)
    requires !Truthy(Entity(port.entityId)) || !Truthy(Entity(res.entityId))
    ensures Compatible(port, res) <==>
      && !(Truthy(res.physicsId) && res.physicsId != port.physicsId)
      && !(Truthy(port.locationId) && Truthy(res.locationId) && port.locationId != res.locationId)
  {
  }

  /** Off the electrical physics, a compatible reservoir has the port's
      entity exactly (after "null" normalisation). */
  lemma OtherPhysicsNeedsEntity(port: Semantics, res: Semantics)
    requires port.physicsId != Some(Electrical) && Compatible(port, res)
    ensures Entity(port.entityId) == Entity(res.entityId)
  {
  }

  /** The location clause of the keyword fallback. */
  predicate LocationAgrees(name: string, loc: string) {
    if Contains(name, "extra") || Contains(name, "_o") then Contains(loc, "extra")
    else if Contains(name, "intra") || Contains(name, "_i") then Contains(loc, "cytosol") || Contains(loc, "intra")
    else false
  }

  /** The keyword test of one reservoir against the lower-cased
      `port_name + "_" + var_name`: a voltage-like name takes the electrical
      reservoir; a sodium- or glucose-like name takes a reservoir of that
      entity whose location label agrees. */
  predicate FallbackHit(name: string, res: Semantics) {
    var ent := Lower(res.entityLabel.GetOr(""));
    var loc := Lower(res.locationLabel.GetOr(""));
    || ((Contains(name, "voltage") || Contains(name, "potential") || Contains(name, "v_mem")) && res.physicsId == Some(Electrical))
    || ((Contains(name, "sodium") || Contains(name, "na")) && (Contains(ent, "sodium") || Contains(ent, "na")) && LocationAgrees(name, loc))
    || ((Contains(name, "glucose") || Contains(name, "glc")) && Contains(ent, "glucose") && LocationAgrees(name, loc))
  }

  function FallbackName(key: string, variable: string): string {
    Lower(key + "_" + variable)
  }

  /** `_heuristic_fallback`: the first reservoir the keyword test accepts. */
  function Fallback(rs: seq<Reservoir>, key: string, variable: string): (r: Option<nat>)
    ensures r.Some? ==>
      && r.value < |rs| && FallbackHit(FallbackName(key, variable), rs[r.value].semantics)
      && forall j :: 0 <= j < r.value ==> !FallbackHit(FallbackName(key, variable), rs[j].semantics)
    ensures r.None? <==> forall j :: 0 <= j < |rs| ==> !FallbackHit(FallbackName(key, variable), rs[j].semantics)
  {
    var name := FallbackName(key, variable);
    Find(rs, (res: Reservoir) => FallbackHit(name, res.semantics))
  }

  /** `actual_var_name or port_key`. */
  function VarOrKey(v: Option<string>, key: string): string {
    if Truthy(v) then v.value else key
  }

  /** The reservoir a port is wired to: the strict match, else the keyword
      fallback — which also runs for ports that carry a physics id. */
  function Match(rs: seq<Reservoir>, key: string, variable: string, port: Semantics): (r: Option<nat>)
    ensures r.Some? ==> r.value < |rs| && (Compatible(port, rs[r.value].semantics) || FallbackHit(FallbackName(key, variable), rs[r.value].semantics))
    ensures r.None? <==> FindCompatible(rs, port).None? && Fallback(rs, key, variable).None?
    ensures Truthy(port.physicsId) && (exists j :: 0 <= j < |rs| && Compatible(port, rs[j].semantics)) ==>
      && r.Some? && Compatible(port, rs[r.value].semantics)
      && forall j :: 0 <= j < r.value ==> !Compatible(port, rs[j].semantics)
    ensures FindCompatible(rs, port).None? && r.Some? ==>
      forall j :: 0 <= j < r.value ==> !FallbackHit(FallbackName(key, variable), rs[j].semantics)
    ensures FindCompatible(rs, port).Some? ==> r == FindCompatible(rs, port)
    ensures FindCompatible(rs, port).None? ==> r == Fallback(rs, key, variable)
  {
    match FindCompatible(rs, port)
    case Some(j) => Some(j)
    case None => Fallback(rs, key, variable)
  }

  /** A port that carries a physics id no reservoir shares is still wired
      by the keyword fallback: a voltage-like name reaches the first
      reservoir when that one is electrical. */
  lemma PhysicsTaggedPortFallsBack(rs: seq<Reservoir>, key: string, variable: string, port: Semantics)
    requires |rs| > 0 && rs[0].semantics.physicsId == Some(Electrical)
    requires Truthy(port.physicsId)
    requires forall j :: 0 <= j < |rs| ==> Truthy(rs[j].semantics.physicsId) && rs[j].semantics.physicsId != port.physicsId
    requires Contains(FallbackName(key, variable), "voltage")
    ensures Match(rs, key, variable, port) == Some(0)
  {
    assert FallbackHit(FallbackName(key, variable), rs[0].semantics);
  }

  // ---------------------------------------------------------------------
  // Wiring ports
  // ---------------------------------------------------------------------

  function InstantiatingMessage(protein: string, instanceId: string): string {
    "   [Composition] Instantiating: " + protein + " as " + instanceId
  }

  function NoPortsMessage(instanceId: string): string {
    "      [Warning] No ports found on " + instanceId
  }

  function HeuristicMessage(v: Option<string>, instanceId: string): string {
    "      [Heuristic] '" + Show(v) + "' not found. Searching for candidate fluxes in " + instanceId + "..."
  }

  function WiredMessage(key: string, loc: Located, resName: string): string {
    if loc.found then "      -> Wired '" + Show(loc.variable) + "' (from " + loc.node.name + ") to '" + resName + "'"
    else "      -> Wired '" + key + "' (Logic Only) to '" + resName + "' [Warning: Variable not found]"
  }

  function UnresolvedMessage(key: string): string {
    "      [Unresolved] '" + key + "' - No match found."
  }

  /** The bond a resolved port adds: from the node computing the variable
      to the reservoir's junction. */
  function LinkBond(loc: Located, key: string, res: Reservoir, sem: Semantics): BGBond {
    BGBond(loc.node.id, res.nodeId, None, ScaffoldLink(key, loc.variable, res.name, sem))
  }

  /** The clones of the component being added are nodes of the model, and
      the port-definition node is one of them. */
  predicate Cloned(e: Engine, clones: seq<BGNode>, pdn: BGNode) {
    pdn in clones && forall i :: 0 <= i < |clones| ==> IdIn(clones[i].id, 0, e.next)
  }

  /** A scaffold bond of port `key` (defined by `def`) to one of `rs`. */
  predicate IsLinkOf(b: BGBond, key: string, def: PortDef, rs: seq<Reservoir>) {
    && b.metadata.ScaffoldLink? && b.metadata.portName == key && b.metadata.semantics == def.semantics
    && exists j :: 0 <= j < |rs| && b.target == rs[j].nodeId && b.metadata.scaffoldId == rs[j].name
  }

  /** A scaffold bond of one of the dictionary-valued entries of `ports`. */
  predicate IsPortLink(b: BGBond, ports: Assoc<string, PortEntry>, rs: seq<Reservoir>) {
    exists i :: 0 <= i < |ports| && ports[i].1.Port? && IsLinkOf(b, ports[i].0, ports[i].1.def, rs)
  }

  /** The engine with one more bond and a new log. */
  function AddLink(e: Engine, b: BGBond, log: seq<string>): Engine {
    e.(model := e.model.(bonds := e.model.bonds + [b]), log := log)
  }

  /** A bond between drawn ids keeps the engine valid. */
  lemma AddLinkValid(e: Engine, b: BGBond, log: seq<string>)
    requires Valid(e) && IdIn(b.source, 0, e.next) && IdIn(b.target, 0, e.next)
    ensures Valid(AddLink(e, b, log))
  {
    var r := AddLink(e, b, log);
    assert forall k :: 0 <= k < |r.model.bonds| ==> r.model.bonds[k] == if k < |e.model.bonds| then e.model.bonds[k] else b;
  }

  /** Every bond from index `from` on is a scaffold link of one of `ports`. */
  ghost predicate PortLinksFrom(bonds: seq<BGBond>, from: nat, ports: Assoc<string, PortEntry>, rs: seq<Reservoir>) {
    forall k :: from <= k < |bonds| ==> IsPortLink(bonds[k], ports, rs)
  }

  /** One dictionary-valued port: locate its variable, match a reservoir,
      and either add one scaffold bond or log it as unresolved. */
  function ResolvePort(e: Engine, clones: seq<BGNode>, pdn: BGNode, instanceId: string, key: string, def: PortDef): (r: Engine)
    ensures r.model.name == e.model.name && r.model.nodes == e.model.nodes && r.reservoirs == e.reservoirs && r.next == e.next
    ensures |r.log| > |e.log| && r.log[..|e.log|] == e.log
    ensures var loc := Locate(clones, pdn, key, FlowVariable(key, def));
      match Match(e.reservoirs, key, VarOrKey(loc.variable, key), def.semantics)
      case Some(j) => r.model.bonds == e.model.bonds + [LinkBond(loc, key, e.reservoirs[j], def.semantics)]
      case None => r.model.bonds == e.model.bonds && r.log[|r.log| - 1] == UnresolvedMessage(key)
  {
    var v := FlowVariable(key, def);
    var loc := Locate(clones, pdn, key, v);
    var heuristic := if DeepSearch(clones, v).None? then [HeuristicMessage(v, instanceId)] else [];
    match Match(e.reservoirs, key, VarOrKey(loc.variable, key), def.semantics)
    case Some(j) =>
      var res := e.reservoirs[j];
      var msgs := heuristic + [WiredMessage(key, loc, res.name)];
      AppendPrefix(e.log, msgs);
      AddLink(e, LinkBond(loc, key, res, def.semantics), e.log + msgs)
    case None =>
      var msgs := heuristic + [UnresolvedMessage(key)];
      AppendPrefix(e.log, msgs);
      e.(log := e.log + msgs)
  }

  /** Every bond a port adds is a scaffold link of that port. */
  lemma ResolvePortLinks(e: Engine, clones: seq<BGNode>, pdn: BGNode, instanceId: string, key: string, def: PortDef)
    ensures var r := ResolvePort(e, clones, pdn, instanceId, key, def);
      forall k :: |e.model.bonds| <= k < |r.model.bonds| ==> IsLinkOf(r.model.bonds[k], key, def, e.reservoirs)
  {
    var r := ResolvePort(e, clones, pdn, instanceId, key, def);
    var loc := Locate(clones, pdn, key, FlowVariable(key, def));
    match Match(e.reservoirs, key, VarOrKey(loc.variable, key), def.semantics)
    case Some(j) =>
      assert r.model.bonds[|e.model.bonds|] == LinkBond(loc, key, e.reservoirs[j], def.semantics);
    case None =>
  }

  /** Resolving a port of cloned nodes keeps the engine valid. */
  lemma ResolvePortValid(e: Engine, clones: seq<BGNode>, pdn: BGNode, instanceId: string, key: string, def: PortDef)
    requires Valid(e) && Cloned(e, clones, pdn)
    ensures Valid(ResolvePort(e, clones, pdn, instanceId, key, def))
  {
    var r := ResolvePort(e, clones, pdn, instanceId, key, def);
    var loc := Locate(clones, pdn, key, FlowVariable(key, def));
    match Match(e.reservoirs, key, VarOrKey(loc.variable, key), def.semantics)
    case Some(j) =>
      var b := LinkBond(loc, key, e.reservoirs[j], def.semantics);
      assert IdIn(b.source, 0, e.next) && IdIn(b.target, 0, e.next);
      AddLinkValid(e, b, r.log);
      assert r == AddLink(e, b, r.log);
    case None =>
  }

  /** The ports in order; entries that are not dictionaries are skipped. */
  function ResolvePorts(e: Engine, clones: seq<BGNode>, pdn: BGNode, instanceId: string, ports: Assoc<string, PortEntry>): (r: Engine)
    ensures r.model.name == e.model.name && r.model.nodes == e.model.nodes && r.reservoirs == e.reservoirs && r.next == e.next
    ensures |r.log| >= |e.log| && r.log[..|e.log|] == e.log
    ensures |e.model.bonds| <= |r.model.bonds| <= |e.model.bonds| + |ports| && r.model.bonds[..|e.model.bonds|] == e.model.bonds
    decreases |ports|
  {
    if |ports| == 0 then e
    else
      var e1 := if ports[0].1.Port? then ResolvePort(e, clones, pdn, instanceId, ports[0].0, ports[0].1.def) else e;
      var r := ResolvePorts(e1, clones, pdn, instanceId, ports[1..]);
      PrefixTrans(e.log, e1.log, r.log);
      PrefixTrans(e.model.bonds, e1.model.bonds, r.model.bonds);
      r
  }

  /** Every bond the ports add is a scaffold link of one of them. */
  lemma {:induction false} ResolvePortsLinks(e: Engine, clones: seq<BGNode>, pdn: BGNode, instanceId: string, ports: Assoc<string, PortEntry>)
    ensures PortLinksFrom(ResolvePorts(e, clones, pdn, instanceId, ports).model.bonds, |e.model.bonds|, ports, e.reservoirs)
    decreases |ports|
  {
    if |ports| > 0 {
      var e1 := if ports[0].1.Port? then ResolvePort(e, clones, pdn, instanceId, ports[0].0, ports[0].1.def) else e;
      if ports[0].1.Port? {
        ResolvePortLinks(e, clones, pdn, instanceId, ports[0].0, ports[0].1.def);
      }
      var r := ResolvePorts(e1, clones, pdn, instanceId, ports[1..]);
      ResolvePortsLinks(e1, clones, pdn, instanceId, ports[1..]);
      PortLinksExtend(e, e1, r, ports);
    }
  }

  /** Resolving the ports of cloned nodes keeps the engine valid. */
  lemma {:induction false} ResolvePortsValid(e: Engine, clones: seq<BGNode>, pdn: BGNode, instanceId: string, ports: Assoc<string, PortEntry>)
    requires Valid(e) && Cloned(e, clones, pdn)
    ensures Valid(ResolvePorts(e, clones, pdn, instanceId, ports))
    decreases |ports|
  {
    if |ports| > 0 {
      var e1 := if ports[0].1.Port? then ResolvePort(e, clones, pdn, instanceId, ports[0].0, ports[0].1.def) else e;
      if ports[0].1.Port? {
        ResolvePortValid(e, clones, pdn, instanceId, ports[0].0, ports[0].1.def);
      }
      ResolvePortsValid(e1, clones, pdn, instanceId, ports[1..]);
    }
  }

  lemma PortLinksExtend(e: Engine, e1: Engine, r: Engine, ports: Assoc<string, PortEntry>)
    requires |ports| > 0 && e1.reservoirs == e.reservoirs
    requires |e.model.bonds| <= |e1.model.bonds| && e1.model.bonds[..|e.model.bonds|] == e.model.bonds
    requires forall k :: |e.model.bonds| <= k < |e1.model.bonds| ==> ports[0].1.Port? && IsLinkOf(e1.model.bonds[k], ports[0].0, ports[0].1.def, e.reservoirs)
    requires |e1.model.bonds| <= |r.model.bonds| && r.model.bonds[..|e1.model.bonds|] == e1.model.bonds
    requires PortLinksFrom(r.model.bonds, |e1.model.bonds|, ports[1..], e1.reservoirs)
    ensures PortLinksFrom(r.model.bonds, |e.model.bonds|, ports, e.reservoirs)
  {
    forall k | |e.model.bonds| <= k < |r.model.bonds| ensures IsPortLink(r.model.bonds[k], ports, e.reservoirs) {
      if k < |e1.model.bonds| {
        assert r.model.bonds[k] == e1.model.bonds[k];
      } else {
        var i :| 0 <= i < |ports[1..]| && ports[1..][i].1.Port? && IsLinkOf(r.model.bonds[k], ports[1..][i].0, ports[1..][i].1.def, e1.reservoirs);
        assert ports[i + 1] == ports[1..][i];
      }
    }
  }

  /** The port-definition node: the first clone with a non-empty ports map. */
  function FirstWithPorts(clones: seq<BGNode>): (r: Option<nat>)
    ensures r.Some? ==> r.value < |clones| && |clones[r.value].ports| > 0 && forall j :: 0 <= j < r.value ==> |clones[j].ports| == 0
    ensures r.None? <==> forall j :: 0 <= j < |clones| ==> |clones[j].ports| == 0
  {
    Find(clones, (n: BGNode) => |n.ports| > 0)
  }

  /** The clones' ids are fresh and distinct, so adding them appends. */
  lemma ClonesAppend(e: Engine, src: seq<BGNode>, instanceId: string)
    requires Valid(e)
    ensures AddNodes(e.model, Clones(src, instanceId, e.next)).nodes == e.model.nodes + Entries(Clones(src, instanceId, e.next))
  {
    var cs := Clones(src, instanceId, e.next);
    forall i | 0 <= i < |cs| ensures !HasKey(e.model.nodes, cs[i].id) {
      NotYetDrawn(e, e.next + i);
    }
    AddNodesAppend(e.model, cs);
  }

  /** Steps 1 and 2 of `add_component`: the clones with fresh ids, then
      the internal bonds whose two ends were cloned. */
  function CloneComponent(e: Engine, comp: Model, instanceId: string): (r: Engine)
    ensures r.model.name == e.model.name && r.reservoirs == e.reservoirs
    ensures r.next == e.next + |comp.nodes|
    ensures r.log == e.log + [InstantiatingMessage(comp.proteinId, instanceId)]
    ensures r.model.bonds == e.model.bonds + CloneBonds(IdMap(Values(comp.nodes), e.next), comp.bonds)
    ensures Valid(e) ==> Valid(r) && r.model.nodes == e.model.nodes + Entries(Clones(Values(comp.nodes), instanceId, e.next))
  {
    var src := Values(comp.nodes);
    var clones := Clones(src, instanceId, e.next);
    var m := AddNodes(e.model, clones);
    var cloned := CloneBonds(IdMap(src, e.next), comp.bonds);
    var r := Engine(m.(bonds := m.bonds + cloned), e.reservoirs, e.log + [InstantiatingMessage(comp.proteinId, instanceId)], e.next + |src|);
    assert Valid(e) ==> Valid(r) && r.model.nodes == e.model.nodes + Entries(clones) by {
      if Valid(e) {
        ClonesAppend(e, src, instanceId);
        CloneValid(e, r, src, instanceId, comp.bonds);
      }
    }
    r
  }

  lemma CloneValid(e: Engine, r: Engine, src: seq<BGNode>, instanceId: string, bonds: seq<BGBond>)
    requires Valid(e)
    requires r.model.nodes == e.model.nodes + Entries(Clones(src, instanceId, e.next))
    requires r.model.bonds == e.model.bonds + CloneBonds(IdMap(src, e.next), bonds)
    requires r.reservoirs == e.reservoirs && r.next == e.next + |src|
    ensures Valid(r)
  {
    var cs := Clones(src, instanceId, e.next);
    var cloned := CloneBonds(IdMap(src, e.next), bonds);
    assert forall i :: 0 <= i < |cs| ==> cs[i].id == Fresh(e.next + i);
    ClonedNodesNumbered(e.model.nodes, cs, e.next);
    assert |r.model.nodes| == r.next;
    CloneBondsEnds(src, e.next, bonds);
    ClonedBondsInRange(e.model.bonds, cloned, e.next, |src|);
    assert forall j :: 0 <= j < |r.reservoirs| ==> IdIn(r.reservoirs[j].nodeId, 0, r.next);
  }

  /** Appending the clones keeps the k-th node holding the k-th id. */
  lemma ClonedNodesNumbered(nodes: Assoc<NodeId, BGNode>, cs: seq<BGNode>, next: nat)
    requires |nodes| == next && forall i :: 0 <= i < |nodes| ==> nodes[i].0 == Fresh(i) && nodes[i].1.id == Fresh(i)
    requires forall i :: 0 <= i < |cs| ==> cs[i].id == Fresh(next + i)
    ensures var all := nodes + Entries(cs);
      forall i :: 0 <= i < |all| ==> all[i].0 == Fresh(i) && all[i].1.id == Fresh(i)
  {
    var all := nodes + Entries(cs);
    forall i | 0 <= i < |all| ensures all[i].0 == Fresh(i) && all[i].1.id == Fresh(i) {
      if i >= next {
        assert all[i] == Entries(cs)[i - next] == (cs[i - next].id, cs[i - next]);
      }
    }
  }

  /** Old bonds within the first `next` ids and cloned bonds within the
      next `count` ids all lie within the first `next + count`. */
  lemma ClonedBondsInRange(old_: seq<BGBond>, cloned: seq<BGBond>, next: nat, count: nat)
    requires forall k :: 0 <= k < |old_| ==> IdIn(old_[k].source, 0, next) && IdIn(old_[k].target, 0, next)
    requires forall k :: 0 <= k < |cloned| ==> IdIn(cloned[k].source, next, count) && IdIn(cloned[k].target, next, count)
    ensures var all := old_ + cloned;
      forall k :: 0 <= k < |all| ==> IdIn(all[k].source, 0, next + count) && IdIn(all[k].target, 0, next + count)
  {
    var all := old_ + cloned;
    forall k | 0 <= k < |all| ensures IdIn(all[k].source, 0, next + count) && IdIn(all[k].target, 0, next + count) {
      if k >= |old_| {
        assert all[k] == cloned[k - |old_|];
      } else {
        assert all[k] == old_[k];
      }
    }
  }

  /** `add_component`: clone the component, then wire the ports of its
      port-definition node; with no such node a warning is logged and no
      scaffold bond is added. */
  function AddComponent(e: Engine, comp: Model, instanceId: string): (r: Engine)
    ensures r.model.name == e.model.name && r.reservoirs == e.reservoirs
    ensures r.next == e.next + |comp.nodes|
    ensures |r.log| > |e.log| && r.log[..|e.log| + 1] == e.log + [InstantiatingMessage(comp.proteinId, instanceId)]
    ensures var cloned := e.model.bonds + CloneBonds(IdMap(Values(comp.nodes), e.next), comp.bonds);
      && |cloned| <= |r.model.bonds| && r.model.bonds[..|cloned|] == cloned
      && (FirstWithPorts(Clones(Values(comp.nodes), instanceId, e.next)).None? ==>
            r.model.bonds == cloned && r.log[|r.log| - 1] == NoPortsMessage(instanceId))
  {
    var e1 := CloneComponent(e, comp, instanceId);
    var clones := Clones(Values(comp.nodes), instanceId, e.next);
    match FirstWithPorts(clones)
    case None =>
      AppendPrefix(e1.log, [NoPortsMessage(instanceId)]);
      e1.(log := e1.log + [NoPortsMessage(instanceId)])
    case Some(p) =>
      var r := ResolvePorts(e1, clones, clones[p], instanceId, clones[p].ports);
      PrefixTrans(e.log + [InstantiatingMessage(comp.proteinId, instanceId)], e1.log, r.log);
      r
  }

  /** With a port-definition node, every bond beyond the cloned ones is a
      scaffold link of one of its ports. */
  lemma AddComponentLinks(e: Engine, comp: Model, instanceId: string)
    ensures var r := AddComponent(e, comp, instanceId);
      var cloned := e.model.bonds + CloneBonds(IdMap(Values(comp.nodes), e.next), comp.bonds);
      var clones := Clones(Values(comp.nodes), instanceId, e.next);
      FirstWithPorts(clones).Some? ==>
        PortLinksFrom(r.model.bonds, |cloned|, clones[FirstWithPorts(clones).value].ports, e.reservoirs)
  {
    var e1 := CloneComponent(e, comp, instanceId);
    var clones := Clones(Values(comp.nodes), instanceId, e.next);
    if FirstWithPorts(clones).Some? {
      var p := FirstWithPorts(clones).value;
      ResolvePortsLinks(e1, clones, clones[p], instanceId, clones[p].ports);
    }
  }

  /** Adding a component keeps the engine valid and appends its clones, in
      order, after the existing nodes. */
  lemma AddComponentValid(e: Engine, comp: Model, instanceId: string)
    requires Valid(e)
    ensures var r := AddComponent(e, comp, instanceId);
      Valid(r) && r.model.nodes == e.model.nodes + Entries(Clones(Values(comp.nodes), instanceId, e.next))
  {
    var e1 := CloneComponent(e, comp, instanceId);
    var clones := Clones(Values(comp.nodes), instanceId, e.next);
    match FirstWithPorts(clones)
    case None =>
      LogKeepsValid(e1, e1.log + [NoPortsMessage(instanceId)]);
    case Some(p) =>
      ClonesAreCloned(e, comp, instanceId, p);
      ResolvePortsValid(e1, clones, clones[p], instanceId, clones[p].ports);
  }

  /** The log plays no part in validity. */
  lemma LogKeepsValid(e: Engine, log: seq<string>)
    requires Valid(e)
    ensures Valid(e.(log := log))
  {
  }

  /** After cloning, the clones are drawn ids of the engine. */
  lemma ClonesAreCloned(e: Engine, comp: Model, instanceId: string, p: nat)
    requires p < |comp.nodes|
    ensures var clones := Clones(Values(comp.nodes), instanceId, e.next);
      Cloned(CloneComponent(e, comp, instanceId), clones, clones[p])
  {
  }

  /** `export_system`. */
  function ExportSystem(e: Engine): (m: Model)
    ensures Valid(e) ==> KeyedById(m) && forall k :: 0 <= k < |m.bonds| ==> HasKey(m.nodes, m.bonds[k].source) && HasKey(m.nodes, m.bonds[k].target)
  {
    if Valid(e) then ValidIsWellFormed(e); e.model else e.model
  }

  // ---------------------------------------------------------------------
  // Sessions
  // ---------------------------------------------------------------------

  /** A call on the engine. */
  datatype Call = Scaffold(domains: seq<Domain>) | Add(component: Model, instanceId: string)

  function Step(e: Engine, c: Call, hex: nat -> string): Engine {
    match c
    case Scaffold(ds) => CreateScaffold(e, ds, hex)
    case Add(comp, instanceId) => AddComponent(e, comp, instanceId)
  }

  /** A session: the calls in order, from a fresh engine or any valid one. */
  function Run(e: Engine, calls: seq<Call>, hex: nat -> string): Engine
    decreases |calls|
  {
    if |calls| == 0 then e else Run(Step(e, calls[0], hex), calls[1..], hex)
  }

  /** Every call keeps a valid engine valid. */
  lemma StepValid(e: Engine, c: Call, hex: nat -> string)
    requires Valid(e)
    ensures Valid(Step(e, c, hex))
  {
    if c.Add? {
      AddComponentValid(e, c.component, c.instanceId);
    }
  }

  /** A session keeps a valid engine valid. */
  lemma {:induction false} RunValid(e: Engine, calls: seq<Call>, hex: nat -> string)
    requires Valid(e)
    ensures Valid(Run(e, calls, hex))
    decreases |calls|
  {
    if |calls| > 0 {
      StepValid(e, calls[0], hex);
      RunValid(Step(e, calls[0], hex), calls[1..], hex);
    }
  }

  /** Whatever calls are made on a fresh engine, the exported model has no
      dangling bond. */
  lemma SessionHasNoDanglingBond(calls: seq<Call>, hex: nat -> string)
    ensures var m := ExportSystem(Run(Initial, calls, hex));
      forall k :: 0 <= k < |m.bonds| ==> HasKey(m.nodes, m.bonds[k].source) && HasKey(m.nodes, m.bonds[k].target)
  {
    assert Valid(Initial);
    RunValid(Initial, calls, hex);
    ValidIsWellFormed(Run(Initial, calls, hex));
  }
}
