/** The library builder: a loaded CellML model becomes a bond-graph model
    with one node per component and one bond per connection between known
    components; and the pure rules of a library build — which files are
    candidates, how a protein id is derived from a file name, and when a
    registry entry is up to date. */
module LibraryBuilder {
  import opened Wrappers
  import opened Strings
  import opened Assoc
  import opened Seqs
  import opened Paths
  import opened CellML
  import opened BondGraph

  // ---------------------------------------------------------------------
  // Components become nodes
  // ---------------------------------------------------------------------

  /** `float(text)`, or the raw text when it does not parse; `parse`
      stands for Python's float parser. */
  function ParamOf(text: string, parse: string -> Option<real>): Param {
    match parse(text)
    case Some(x) => Number(x)
    case None => Raw(text)
  }

  /** The parameters of a component: every variable with a non-empty
      initial value, stored under the variable's name. */
  function Params(vars: Assoc<Option<string>, Variable>, parse: string -> Option<real>): (ps: Assoc<Option<string>, Param>)
    ensures UniqueKeys(ps)
    ensures forall k :: HasKey(ps, k) <==> exists j :: 0 <= j < |vars| && vars[j].0 == k && Truthy(vars[j].1.initialValue)
    ensures forall j :: 0 <= j < |vars| && Truthy(vars[j].1.initialValue) && (forall j' :: j < j' < |vars| ==> vars[j'].0 != vars[j].0) ==>
      Get(ps, vars[j].0) == Some(ParamOf(vars[j].1.initialValue.value, parse))
    decreases |vars|
  {
    if |vars| == 0 then []
    else
      var init := vars[..|vars| - 1];
      var last := vars[|vars| - 1];
      var prev := Params(init, parse);
      assert forall j :: 0 <= j < |init| ==> init[j] == vars[j];
      if !Truthy(last.1.initialValue) then prev
      else
        var ps := Put(prev, last.0, ParamOf(last.1.initialValue.value, parse));
        assert forall k :: HasKey(ps, k) <==> HasKey(prev, k) || k == last.0 by {
          forall k ensures HasKey(ps, k) <==> HasKey(prev, k) || k == last.0 {
            PutKeys(prev, last.0, ParamOf(last.1.initialValue.value, parse), k);
          }
        }
        assert forall j :: 0 <= j < |init| && Truthy(vars[j].1.initialValue) && (forall j' :: j < j' < |vars| ==> vars[j'].0 != vars[j].0) ==>
          Get(ps, vars[j].0) == Some(ParamOf(vars[j].1.initialValue.value, parse)) by {
          forall j | 0 <= j < |init| && Truthy(vars[j].1.initialValue) && (forall j' :: j < j' < |vars| ==> vars[j'].0 != vars[j].0)
            ensures Get(ps, vars[j].0) == Some(ParamOf(vars[j].1.initialValue.value, parse))
          {
            assert vars[|vars| - 1].0 != vars[j].0;
            GetPutOther(prev, last.0, ParamOf(last.1.initialValue.value, parse), vars[j].0);
          }
        }
        ps
  }

  /** The node of one component. */
  function ComponentNode(name: string, c: Component, id: NodeId, parse: string -> Option<real>): BGNode {
    BGNode(id, name, "CellMLComponent", Params(c.variables, parse),
           ComponentMeta(c.equations, c.structured, c.variables), [], [], [], [])
  }

  /** `[BGNode(...) for name, c in components.items()]`: one node per
      component, in order, each with the next fresh id. */
  function ComponentNodes(comps: Assoc<string, Component>, next: nat, parse: string -> Option<real>): (ns: seq<BGNode>)
    ensures |ns| == |comps|
    ensures forall i :: 0 <= i < |comps| ==> ns[i] == ComponentNode(comps[i].0, comps[i].1, Fresh(next + i), parse)
    ensures forall i :: 0 <= i < |comps| ==>
      && ns[i].name == comps[i].0 && ns[i].kind == "CellMLComponent" && ns[i].id == Fresh(next + i)
      && ns[i].parameters == Params(comps[i].1.variables, parse)
      && ns[i].metadata == ComponentMeta(comps[i].1.equations, comps[i].1.structured, comps[i].1.variables)
      && ns[i].ports == [] && ns[i].variables == [] && ns[i].constitutiveLaws == [] && ns[i].systemProperties == []
    ensures forall i, j :: 0 <= i < j < |ns| ==> ns[i].id != ns[j].id
  {
    seq(|comps|, i requires 0 <= i < |comps| => ComponentNode(comps[i].0, comps[i].1, Fresh(next + i), parse))
  }

  /** The (name, node) pairs of `{n.name: n for n in nodes}`, in order. */
  function NamePairs(ns: seq<BGNode>): (kvs: seq<(string, BGNode)>)
    ensures |kvs| == |ns| && forall i :: 0 <= i < |ns| ==> kvs[i] == (ns[i].name, ns[i])
  {
    seq(|ns|, i requires 0 <= i < |ns| => (ns[i].name, ns[i]))
  }

  /** `{n.name: n for n in nodes}`. */
  function NameMap(ns: seq<BGNode>): Assoc<string, BGNode> {
    PutAll([], NamePairs(ns))
  }

  /** One bond per connection whose two components are both nodes, in
      connection order, carrying the connection's variable pairs. */
  function LinkAll(m: Model, byName: Assoc<string, BGNode>, conns: seq<Connection>): (r: Model)
    ensures r.name == m.name && r.proteinId == m.proteinId && r.nodes == m.nodes
    decreases |conns|
  {
    if |conns| == 0 then m
    else
      LinkAll(LinkStep(m, byName, conns[0]), byName, conns[1..])
  }

  function LinkStep(m: Model, byName: Assoc<string, BGNode>, c: Connection): Model {
    match (Get(byName, c.c1), Get(byName, c.c2))
    case (Some(n1), Some(n2)) => AddBond(m, n1, n2, None, Some(VariableMap(c.vars)))
    case _ => m
  }

  /** The bonds a conversion should produce, described by position: the
      k-th component's node has id `Fresh(next + k)`. */
  function ExpectedBonds(comps: Assoc<string, Component>, next: nat, conns: seq<Connection>): (bs: seq<BGBond>)
    ensures |bs| <= |conns|
    ensures forall k :: 0 <= k < |bs| ==> IdIn(bs[k].source, next, |comps|) && IdIn(bs[k].target, next, |comps|)
  {
    if |conns| == 0 then []
    else
      ExpectedHead(comps, next, conns[0]) + ExpectedBonds(comps, next, conns[1..])
  }

  function ExpectedHead(comps: Assoc<string, Component>, next: nat, c: Connection): (bs: seq<BGBond>)
    ensures |bs| <= 1
    ensures forall k :: 0 <= k < |bs| ==> IdIn(bs[k].source, next, |comps|) && IdIn(bs[k].target, next, |comps|)
  {
    match (IndexOf(comps, c.c1), IndexOf(comps, c.c2))
    case (Some(i), Some(j)) => [BGBond(Fresh(next + i), Fresh(next + j), None, VariableMap(c.vars))]
    case _ => []
  }

  /** `convert_cellml_to_bg_ast` on the loader's output: one
      `CellMLComponent` node per component, in order, with fresh ids
      `next`, `next + 1`, …; then the bonds between known components. */
  function Convert(comps: Assoc<string, Component>, conns: seq<Connection>, protein: string, next: nat, parse: string -> Option<real>): (r: (Model, nat))
    requires UniqueKeys(comps)
    ensures r.1 == next + |comps|
    ensures r.0.name == protein + "_Model" && r.0.proteinId == protein
    ensures KeyedById(r.0) && |r.0.nodes| == |comps|
    ensures forall i :: 0 <= i < |comps| ==> r.0.nodes[i] == (Fresh(next + i), ComponentNode(comps[i].0, comps[i].1, Fresh(next + i), parse))
    ensures r.0.bonds == ExpectedBonds(comps, next, conns)
  {
    var ns := ComponentNodes(comps, next, parse);
    var m := AddNodes(Model(protein + "_Model", protein, [], []), ns);
    ComponentNodesAdded(comps, next, parse, Model(protein + "_Model", protein, [], []));
    var byName := NameMap(ns);
    ComponentNamesFound(comps, next, parse);
    LinkAllBonds(m, comps, next, byName, conns);
    (LinkAll(m, byName, conns), next + |comps|)
  }

  /** The component nodes, whose ids are distinct, land in order in an
      empty model. */
  lemma ComponentNodesAdded(comps: Assoc<string, Component>, next: nat, parse: string -> Option<real>, m0: Model)
    requires m0.nodes == []
    ensures AddNodes(m0, ComponentNodes(comps, next, parse)).nodes == Entries(ComponentNodes(comps, next, parse))
    ensures Values(AddNodes(m0, ComponentNodes(comps, next, parse)).nodes) == ComponentNodes(comps, next, parse)
  {
    var ns := ComponentNodes(comps, next, parse);
    AddNodesAppend(m0, ns);
    assert m0.nodes + Entries(ns) == Entries(ns);
  }

  /** The name map of the component nodes finds each component's node. */
  lemma ComponentNamesFound(comps: Assoc<string, Component>, next: nat, parse: string -> Option<real>)
    requires UniqueKeys(comps)
    ensures FindsNodes(NameMap(ComponentNodes(comps, next, parse)), comps, next)
  {
    var ns := ComponentNodes(comps, next, parse);
    NameMapLookup(ns);
    assert forall name :: !HasKey(comps, name) ==> forall i :: 0 <= i < |ns| ==> ns[i].name != name;
  }

  /** With unique names, building the map appends the pairs in order. */
  lemma NameMapIsPairs(ns: seq<BGNode>)
    requires forall i, j :: 0 <= i < j < |ns| ==> ns[i].name != ns[j].name
    ensures UniqueKeys(NamePairs(ns)) && NameMap(ns) == NamePairs(ns)
  {
    var kvs := NamePairs(ns);
    assert [] + kvs == kvs;
    PutAllFresh([], kvs);
  }

  /** With unique names, the name map finds each node under its name and
      nothing under any other name. */
  lemma NameMapLookup(ns: seq<BGNode>)
    requires forall i, j :: 0 <= i < j < |ns| ==> ns[i].name != ns[j].name
    ensures forall i :: 0 <= i < |ns| ==> Get(NameMap(ns), ns[i].name) == Some(ns[i])
    ensures forall name :: (forall i :: 0 <= i < |ns| ==> ns[i].name != name) ==> Get(NameMap(ns), name) == None
  {
    var kvs := NamePairs(ns);
    NameMapIsPairs(ns);
    forall i | 0 <= i < |ns| ensures Get(kvs, ns[i].name) == Some(ns[i]) {
      GetAt(kvs, i);
    }
    forall name | (forall i :: 0 <= i < |ns| ==> ns[i].name != name) ensures Get(kvs, name) == None {
      assert !HasKey(kvs, name);
    }
  }

  /** `byName` finds the k-th component's node, with id `Fresh(next + k)`,
      under the component's name, and nothing under other names. */
  ghost predicate FindsNodes(byName: Assoc<string, BGNode>, comps: Assoc<string, Component>, next: nat) {
    && (forall i :: 0 <= i < |comps| ==> Get(byName, comps[i].0).Some? && Get(byName, comps[i].0).value.id == Fresh(next + i))
    && (forall name :: !HasKey(comps, name) ==> Get(byName, name) == None)
  }

  /** The bond one connection contributes through the name map. */
  function StepBonds(byName: Assoc<string, BGNode>, c: Connection): seq<BGBond> {
    match (Get(byName, c.c1), Get(byName, c.c2))
    case (Some(n1), Some(n2)) => [BGBond(n1.id, n2.id, None, VariableMap(c.vars))]
    case _ => []
  }

  function LinkedBonds(byName: Assoc<string, BGNode>, conns: seq<Connection>): seq<BGBond> {
    if |conns| == 0 then [] else StepBonds(byName, conns[0]) + LinkedBonds(byName, conns[1..])
  }

  /** Linking appends, connection by connection, what each one contributes. */
  lemma {:induction false} LinkAllAppends(m: Model, byName: Assoc<string, BGNode>, conns: seq<Connection>)
    ensures LinkAll(m, byName, conns).bonds == m.bonds + LinkedBonds(byName, conns)
    decreases |conns|
  {
    if |conns| == 0 {
      assert m.bonds + [] == m.bonds;
    } else {
      var m1 := LinkStep(m, byName, conns[0]);
      assert m1.bonds == m.bonds + StepBonds(byName, conns[0]);
      LinkAllAppends(m1, byName, conns[1..]);
      AppendAssoc(m.bonds, StepBonds(byName, conns[0]), LinkedBonds(byName, conns[1..]));
    }
  }

  /** Through a name map that finds the k-th component's node, the linked
      bonds are exactly the expected ones. */
  lemma {:induction false} LinkedExpected(comps: Assoc<string, Component>, next: nat, byName: Assoc<string, BGNode>, conns: seq<Connection>)
    requires UniqueKeys(comps) && FindsNodes(byName, comps, next)
    ensures LinkedBonds(byName, conns) == ExpectedBonds(comps, next, conns)
    decreases |conns|
  {
    if |conns| > 0 {
      StepHead(comps, next, byName, conns[0]);
      LinkedExpected(comps, next, byName, conns[1..]);
    }
  }

  lemma StepHead(comps: Assoc<string, Component>, next: nat, byName: Assoc<string, BGNode>, c: Connection)
    requires UniqueKeys(comps) && FindsNodes(byName, comps, next)
    ensures StepBonds(byName, c) == ExpectedHead(comps, next, c)
  {
    match IndexOf(comps, c.c1)
    case None =>
    case Some(i) =>
      assert Get(byName, c.c1).value.id == Fresh(next + i);
      match IndexOf(comps, c.c2)
      case None =>
      case Some(j) =>
        assert Get(byName, c.c2).value.id == Fresh(next + j);
  }

  /** Linking through such a name map appends exactly the expected bonds. */
  lemma LinkAllBonds(m: Model, comps: Assoc<string, Component>, next: nat, byName: Assoc<string, BGNode>, conns: seq<Connection>)
    requires UniqueKeys(comps) && FindsNodes(byName, comps, next)
    ensures LinkAll(m, byName, conns).bonds == m.bonds + ExpectedBonds(comps, next, conns)
  {
    LinkAllAppends(m, byName, conns);
    LinkedExpected(comps, next, byName, conns);
  }

  /** A converted model has no dangling bond: every bond joins two of its
      nodes. */
  lemma ConvertNoDangling(comps: Assoc<string, Component>, conns: seq<Connection>, protein: string, next: nat, parse: string -> Option<real>)
    requires UniqueKeys(comps)
    ensures var m := Convert(comps, conns, protein, next, parse).0;
      forall k :: 0 <= k < |m.bonds| ==> HasKey(m.nodes, m.bonds[k].source) && HasKey(m.nodes, m.bonds[k].target)
  {
    var m := Convert(comps, conns, protein, next, parse).0;
    forall k | 0 <= k < |m.bonds| ensures HasKey(m.nodes, m.bonds[k].source) && HasKey(m.nodes, m.bonds[k].target) {
      var i := m.bonds[k].source.k - next;
      assert m.nodes[i].0 == m.bonds[k].source;
      var j := m.bonds[k].target.k - next;
      assert m.nodes[j].0 == m.bonds[k].target;
    }
  }

  /** `convert_cellml_to_bg_ast(filepath, protein)`: a fresh loader reads
      the file, then its output is converted. */
  function LoadAndConvert(fs: map<string, FileContent>, cwd: string, filepath: string, protein: string, next: nat, parse: string -> Option<real>): (r: (Model, nat))
    requires IsAbs(cwd)
    ensures |r.0.nodes| == |Load(fs, cwd, filepath).components|
    ensures forall i :: 0 <= i < |r.0.nodes| ==>
      r.0.nodes[i].1.name == Load(fs, cwd, filepath).components[i].0 && r.0.nodes[i].1.kind == "CellMLComponent"
  {
    LoadIsGood(fs, cwd, filepath);
    var st := Load(fs, cwd, filepath);
    Convert(st.components, st.connections, protein, next, parse)
  }

  // ---------------------------------------------------------------------
  // Library build rules
  // ---------------------------------------------------------------------

  /** The file filter of a library build. */
  predicate IsCandidate(file: string) {
    IsSuffix(".cellml", file)
    && !IsPrefix("units", file) && !IsPrefix("param", file)
    && !IsPrefix("constant", file) && !IsPrefix("ion", file)
  }

  /** The protein id of a file name: every "BG_" removed, then every ".cellml". */
  function ProteinId(filename: string): string {
    ReplaceAll(ReplaceAll(filename, "BG_", ""), ".cellml", "")
  }

  /** `pat` occurs in `s` at position `p`. */
  predicate OccursAt(s: string, pat: string, p: nat) {
    p + |pat| <= |s| && s[p..p + |pat|] == pat
  }

  ghost predicate NoOccurrence(s: string, pat: string) {
    forall p: nat :: !OccursAt(s, pat, p)
  }

  lemma {:induction false} ReplaceAbsent(s: string, pat: string, rep: string)
    requires |pat| > 0 && NoOccurrence(s, pat)
    ensures ReplaceAll(s, pat, rep) == s
    decreases |s|
  {
    if |s| >= |pat| {
      assert !OccursAt(s, pat, 0);
      assert NoOccurrence(s[1..], pat) by {
        forall p: nat ensures !OccursAt(s[1..], pat, p) {
          assert !OccursAt(s, pat, p + 1);
          if p + |pat| <= |s[1..]| {
            assert s[1..][p..p + |pat|] == s[p + 1..p + 1 + |pat|];
          }
        }
      }
      ReplaceAbsent(s[1..], pat, rep);
      assert [s[0]] + s[1..] == s;
    }
  }

  /** A name without '.' followed by ".cellml" loses exactly the suffix. */
  lemma {:induction false} StripCellmlSuffix(x: string)
    requires forall i :: 0 <= i < |x| ==> x[i] != '.'
    ensures ReplaceAll(x + ".cellml", ".cellml", "") == x
    decreases |x|
  {
    if |x| == 0 {
      assert "" + ".cellml" == ".cellml";
      assert ".cellml"[..7] == ".cellml";
      assert ".cellml"[7..] == "";
    } else {
      var s := x + ".cellml";
      assert s[0] == x[0];
      assert s[..7] != ".cellml";
      assert s[1..] == x[1..] + ".cellml";
      StripCellmlSuffix(x[1..]);
      assert [x[0]] + x[1..] == x;
    }
  }

  /** "BG_<x>.cellml" yields "<x>" when `x` has no '.' and no "BG_". */
  lemma ProteinIdOfLibraryFile(x: string)
    requires forall i :: 0 <= i < |x| ==> x[i] != '.'
    requires NoOccurrence(x, "BG_")
    ensures ProteinId("BG_" + x + ".cellml") == x
  {
    var s := "BG_" + x + ".cellml";
    var t := x + ".cellml";
    assert s == "BG_" + t;
    assert s[..3] == "BG_";
    assert s[3..] == t;
    assert NoOccurrence(t, "BG_") by {
      forall p: nat ensures !OccursAt(t, "BG_", p) {
        if p + 3 > |t| {
        } else if p + 3 <= |x| {
          assert !OccursAt(x, "BG_", p);
          assert t[p..p + 3] == x[p..p + 3];
        } else if p < |x| {
          assert t[p..p + 3][|x| - p] == t[|x|] == '.';
        } else {
          assert t[p..p + 3][0] == t[p] == ".cellml"[p - |x|];
        }
      }
    }
    ReplaceAbsent(t, "BG_", "");
    assert ReplaceAll(s, "BG_", "") == "" + t;
    assert "" + t == t;
    StripCellmlSuffix(x);
  }

  /** A registry entry as the builder and the retrieval agent use it. */
  datatype RegistryEntry = RegistryEntry(
    filepath: Option<string>,
    semanticVersion: Option<real>,
    ports: Option<Assoc<string, PortEntry>>,
    variables: Option<Assoc<string, Json>>,
    constitutiveLaws: Option<seq<Json>>,
    systemProperties: Option<Assoc<string, Json>>)

  type Registry = Assoc<string, RegistryEntry>

  /** An entry is skipped only when it exists with a version of at least 4.0. */
  predicate UpToDate(registry: Registry, protein: string) {
    var e := Get(registry, protein);
    e.Some? && e.value.semanticVersion.Some? && e.value.semanticVersion.value >= 4.0
  }

  /** The entry a successful ingestion of `p` stores: the annotation's
      fields, with an absent ports, variables or system-properties map read
      as empty and absent constitutive laws as an empty list. */
  function Stamped(e: RegistryEntry, p: string): (s: RegistryEntry)
    ensures s.filepath == Some(p) && s.semanticVersion == Some(4.0)
    ensures s.ports.Some? && s.variables.Some? && s.constitutiveLaws.Some? && s.systemProperties.Some?
    ensures e.ports.Some? ==> s.ports == e.ports
    ensures e.variables.Some? ==> s.variables == e.variables
    ensures e.constitutiveLaws.Some? ==> s.constitutiveLaws == e.constitutiveLaws
    ensures e.systemProperties.Some? ==> s.systemProperties == e.systemProperties
    ensures e.ports.None? ==> s.ports == Some([])
    ensures e.variables.None? ==> s.variables == Some([])
    ensures e.constitutiveLaws.None? ==> s.constitutiveLaws == Some([])
    ensures e.systemProperties.None? ==> s.systemProperties == Some([])
  {
    e.(filepath := Some(p), semanticVersion := Some(4.0),
       ports := Some(e.ports.GetOr([])), variables := Some(e.variables.GetOr([])),
       constitutiveLaws := Some(e.constitutiveLaws.GetOr([])), systemProperties := Some(e.systemProperties.GetOr([])))
  }

  /** The visit of one walked path: a candidate file whose protein is not
      up to date is ingested, and a successful annotation is stored under
      the protein id. */
  function Ingest(registry: Registry, p: string, annotate: (string, string) -> Option<RegistryEntry>): (r: Registry)
    requires UniqueKeys(registry)
    ensures UniqueKeys(r)
    ensures var pid := ProteinId(Basename(p));
      && (IsCandidate(Basename(p)) && !UpToDate(registry, pid) && annotate(p, pid).Some? ==>
          Get(r, pid) == Some(Stamped(annotate(p, pid).value, p)) && UpToDate(r, pid)
          && Get(r, pid).value.filepath == Some(p)
          && Get(r, pid).value.ports.Some? && Get(r, pid).value.variables.Some?
          && Get(r, pid).value.constitutiveLaws.Some? && Get(r, pid).value.systemProperties.Some?)
      && (forall q :: q != pid ==> Get(r, q) == Get(registry, q))
      && (!(IsCandidate(Basename(p)) && annotate(p, pid).Some?) || UpToDate(registry, pid) ==> r == registry)
  {
    var pid := ProteinId(Basename(p));
    if IsCandidate(Basename(p)) && !UpToDate(registry, pid) && annotate(p, pid).Some? then
      var e := Stamped(annotate(p, pid).value, p);
      assert forall q :: q != pid ==> Get(Put(registry, pid, e), q) == Get(registry, q) by {
        forall q | q != pid ensures Get(Put(registry, pid, e), q) == Get(registry, q) {
          GetPutOther(registry, pid, e, q);
        }
      }
      Put(registry, pid, e)
    else registry
  }

  /** One pass of `build_library` over the walked file paths, in order.
      `annotate(path, protein)` stands for the language-model annotation of
      `_ingest_model`: `None` when it fails or is empty, which leaves the
      registry unchanged. A successful ingestion registers the entry with
      version 4.0. Returns the registry and the paths ingested. */
  function Build(registry: Registry, paths: seq<string>, annotate: (string, string) -> Option<RegistryEntry>): (r: (Registry, seq<string>))
    requires UniqueKeys(registry)
    ensures UniqueKeys(r.0)
    ensures forall i :: 0 <= i < |r.1| ==> r.1[i] in paths && IsCandidate(Basename(r.1[i]))
    decreases |paths|
  {
    if |paths| == 0 then (registry, [])
    else
      var p := paths[0];
      var ingest := IsCandidate(Basename(p)) && !UpToDate(registry, ProteinId(Basename(p)));
      var rest := Build(Ingest(registry, p, annotate), paths[1..], annotate);
      (rest.0, (if ingest then [p] else []) + rest.1)
  }

  /** An up-to-date entry is never touched again by the pass. */
  lemma {:induction false} BuildKeepsUpToDate(registry: Registry, paths: seq<string>, annotate: (string, string) -> Option<RegistryEntry>, pid: string)
    requires UniqueKeys(registry) && UpToDate(registry, pid)
    ensures Get(Build(registry, paths, annotate).0, pid) == Get(registry, pid)
    decreases |paths|
  {
    if |paths| > 0 {
      var reg1 := Ingest(registry, paths[0], annotate);
      assert Get(reg1, pid) == Get(registry, pid);
      BuildKeepsUpToDate(reg1, paths[1..], annotate, pid);
    }
  }

  /** Every walked candidate whose protein was stale and whose annotation
      succeeds ends up registered at version 4.0. */
  lemma {:induction false} BuildRegisters(registry: Registry, paths: seq<string>, annotate: (string, string) -> Option<RegistryEntry>, p: string)
    requires UniqueKeys(registry) && p in paths && IsCandidate(Basename(p))
    requires !UpToDate(registry, ProteinId(Basename(p))) && annotate(p, ProteinId(Basename(p))).Some?
    ensures UpToDate(Build(registry, paths, annotate).0, ProteinId(Basename(p)))
    decreases |paths|
  {
    var pid := ProteinId(Basename(p));
    var reg1 := Ingest(registry, paths[0], annotate);
    if UpToDate(reg1, pid) {
      BuildKeepsUpToDate(reg1, paths[1..], annotate, pid);
    } else {
      assert paths[0] != p;
      assert p in paths[1..];
      BuildRegisters(reg1, paths[1..], annotate, p);
    }
  }
}
