/** The deterministic parts of the agents: where a registry file path is
    looked up, how a registry entry's semantics are merged into a loaded
    component, how the retrieval agent sorts the requested mechanisms into
    found and missing ones and reports a status for each found one, and
    the parameter agent's count of unresolved markers. The language-model
    calls of the agents are not part of this model. */
module BioAgents {
  import opened Wrappers
  import opened Strings
  import opened Seqs
  import opened Assoc
  import opened Paths
  import opened BondGraph
  import opened LibraryBuilder

  // ---------------------------------------------------------------------
  // Data paths
  // ---------------------------------------------------------------------

  /** Whether the data directory is itself a directory named "...data",
      trailing separators aside. */
  predicate DataDirEndsInData(dataDir: string) {
    IsSuffix("data", RStripChar(dataDir, '/'))
  }

  /** `_resolve_filepath`: an absolute path is kept; a registry path that
      starts with "data/" under a data directory ending in "data" loses
      that segment so it is not doubled; any other path is joined onto the
      data directory. */
  function ResolveFilepath(dataDir: string, path: string): (r: string)
    ensures IsAbs(path) ==> r == path
    ensures !IsAbs(path) && !IsPrefix("data/", path) ==> IsPrefix(dataDir, r) && IsSuffix(path, r)
  {
    if IsAbs(path) then path
    else if DataDirEndsInData(dataDir) && IsPrefix("data/", path) then Paths.Join(dataDir, path[5..])
    else Paths.Join(dataDir, path)
  }

  /** Under a data directory ending in "data", "data/rest" is "rest" joined
      onto the data directory. */
  lemma DataSegmentNotDoubled(dataDir: string, rest: string)
    requires DataDirEndsInData(dataDir)
    ensures ResolveFilepath(dataDir, "data/" + rest) == Paths.Join(dataDir, rest)
  {
    var p := "data/" + rest;
    assert p[..5] == "data/";
    assert p[5..] == rest;
  }

  /** Under any other data directory the path is joined whole. */
  lemma OtherDataDirJoinsWhole(dataDir: string, path: string)
    requires !IsAbs(path) && !DataDirEndsInData(dataDir)
    ensures ResolveFilepath(dataDir, path) == Paths.Join(dataDir, path)
    ensures IsPrefix(dataDir, ResolveFilepath(dataDir, path)) && IsSuffix(path, ResolveFilepath(dataDir, path))
  {
  }

  /** A relative path stays under the data directory unless its part after
      "data/" is itself absolute. */
  lemma RelativeStaysUnderDataDir(dataDir: string, path: string)
    requires !IsAbs(path)
    requires IsPrefix("data/", path) ==> !IsAbs(path[5..])
    ensures IsPrefix(dataDir, ResolveFilepath(dataDir, path))
  {
  }

  // ---------------------------------------------------------------------
  // Merging registry semantics
  // ---------------------------------------------------------------------

  /** The fields of `n` after `setattr` of each key present in `entry`. */
  function WithEntry(n: BGNode, entry: RegistryEntry): BGNode {
    n.(ports := entry.ports.GetOr(n.ports),
       variables := entry.variables.GetOr(n.variables),
       constitutiveLaws := entry.constitutiveLaws.GetOr(n.constitutiveLaws),
       systemProperties := entry.systemProperties.GetOr(n.systemProperties))
  }

  /** `_inject_semantics_into_ast`: with no nodes nothing happens; otherwise
      the first node in insertion order takes the entry's ports, variables,
      constitutive laws and system properties, each only when the entry has
      that key. Every other node, and the first node's identity, name,
      type, parameters and metadata, are untouched. */
  function InjectSemantics(m: Model, entry: RegistryEntry): (r: Model)
    ensures r.name == m.name && r.proteinId == m.proteinId && r.bonds == m.bonds
    ensures |r.nodes| == |m.nodes|
    ensures |m.nodes| == 0 ==> r == m
    ensures forall i :: 1 <= i < |m.nodes| ==> r.nodes[i] == m.nodes[i]
    ensures |m.nodes| > 0 ==> var (k, n) := m.nodes[0]; var (k', n') := r.nodes[0];
      && k' == k && n'.id == n.id && n'.name == n.name && n'.kind == n.kind
      && n'.parameters == n.parameters && n'.metadata == n.metadata
      && n'.ports == (if entry.ports.Some? then entry.ports.value else n.ports)
      && n'.variables == (if entry.variables.Some? then entry.variables.value else n.variables)
      && n'.constitutiveLaws == (if entry.constitutiveLaws.Some? then entry.constitutiveLaws.value else n.constitutiveLaws)
      && n'.systemProperties == (if entry.systemProperties.Some? then entry.systemProperties.value else n.systemProperties)
  {
    if |m.nodes| == 0 then m
    else m.(nodes := [(m.nodes[0].0, WithEntry(m.nodes[0].1, entry))] + m.nodes[1..])
  }

  /** Merging the same entry twice is merging it once. */
  lemma InjectIdempotent(m: Model, entry: RegistryEntry)
    ensures InjectSemantics(InjectSemantics(m, entry), entry) == InjectSemantics(m, entry)
  {
    if |m.nodes| > 0 {
      var r := InjectSemantics(m, entry);
      var r2 := InjectSemantics(r, entry);
      assert r2.nodes[0] == r.nodes[0];
      assert r2.nodes == r.nodes;
    }
  }

  /** An entry without any of the four keys changes nothing. */
  lemma InjectEmptyEntry(m: Model, entry: RegistryEntry)
    requires entry.ports.None? && entry.variables.None? && entry.constitutiveLaws.None? && entry.systemProperties.None?
    ensures InjectSemantics(m, entry) == m
  {
    if |m.nodes| > 0 {
      var r := InjectSemantics(m, entry);
      assert r.nodes[0] == m.nodes[0];
      assert r.nodes == m.nodes;
    }
  }

  /** An entry the library builder wrote always carries the four keys: when
      the annotation gave none of them, the first node's ports, variables,
      laws and system properties are reset to empty. */
  lemma InjectBuilderEntry(m: Model, e: RegistryEntry, p: string)
    requires |m.nodes| > 0
    requires e.ports.None? && e.variables.None? && e.constitutiveLaws.None? && e.systemProperties.None?
    ensures var n := InjectSemantics(m, Stamped(e, p)).nodes[0].1;
      n.ports == [] && n.variables == [] && n.constitutiveLaws == [] && n.systemProperties == []
  {
  }

  /** The merge keeps a model keyed by id, so a merged component can be
      added to the composition engine as before. */
  lemma InjectKeepsKeyedById(m: Model, entry: RegistryEntry)
    requires KeyedById(m)
    ensures KeyedById(InjectSemantics(m, entry))
  {
    var r := InjectSemantics(m, entry);
    assert forall i :: 0 <= i < |r.nodes| ==> r.nodes[i].0 == m.nodes[i].0;
  }

  // ---------------------------------------------------------------------
  // Retrieval
  // ---------------------------------------------------------------------

  /** A requested mechanism: its `library_id` and `id`, `None` when the key
      is absent. */
  datatype Mechanism = Mechanism(libraryId: Option<string>, id: Option<string>)

  predicate IsFound(m: Mechanism) {
    Truthy(m.libraryId)
  }

  predicate IsMissing(m: Mechanism) {
    !Truthy(m.libraryId)
  }

  /** The found/missing split of `RetrievalGenerationAgent.execute`. */
  method Partition(ms: seq<Mechanism>) returns (found: seq<Mechanism>, missing: seq<Mechanism>)
    ensures found == Filter(ms, IsFound) && missing == Filter(ms, IsMissing)
    ensures forall i :: 0 <= i < |found| ==> Truthy(found[i].libraryId)
    ensures forall i :: 0 <= i < |missing| ==> !Truthy(missing[i].libraryId)
    ensures multiset(found) + multiset(missing) == multiset(ms)
  {
    found := [];
    missing := [];
    for i := 0 to |ms|
      invariant found == Filter(ms[..i], IsFound)
      invariant missing == Filter(ms[..i], IsMissing)
    {
      assert ms[..i + 1][..i] == ms[..i];
      if Truthy(ms[i].libraryId) {
        found := found + [ms[i]];
      } else {
        missing := missing + [ms[i]];
      }
    }
    assert ms[..|ms|] == ms;
    FilterSplits(ms, IsFound, IsMissing);
  }

  /** What loading one registry file gives: the converted model, or the
      message of the exception it raised. */
  datatype Attempt = Converted(model: Model) | Threw(message: string)

  /** The environment of the retrieval step: the registry, the data
      directory, which files exist, and the file conversion (standing for
      `convert_cellml_to_bg_ast` on the file system). */
  datatype Library = Library(
    registry: Registry,
    dataDir: string,
    isFile: string -> bool,
    convert: (string, string) -> Attempt)

  datatype ComponentStatus = ComponentStatus(componentId: string, status: string, source: string, message: string)

  /** A loaded component with its instance id hint. */
  datatype Loaded = Loaded(instanceHint: string, model: Model)

  function LibId(m: Mechanism): string {
    m.libraryId.GetOr("")
  }

  /** `comp_def.get('id', f"{lib_id}_inst")`. */
  function InstanceId(m: Mechanism): string {
    m.id.GetOr(LibId(m) + "_inst")
  }

  /** The file a registry entry is loaded from: the resolved path, or, when
      that does not exist and the raw path starts with "data/", the raw path
      joined onto the data directory if that exists. */
  function SourcePath(lib: Library, entry: RegistryEntry): (p: string)
    ensures lib.isFile(ResolveFilepath(lib.dataDir, entry.filepath.GetOr(""))) ==> p == ResolveFilepath(lib.dataDir, entry.filepath.GetOr(""))
    ensures var raw := entry.filepath.GetOr(""); var full := ResolveFilepath(lib.dataDir, raw);
      !lib.isFile(full) && IsPrefix("data/", raw) && lib.isFile(Paths.Join(lib.dataDir, raw)) ==> p == Paths.Join(lib.dataDir, raw)
    ensures var raw := entry.filepath.GetOr(""); var full := ResolveFilepath(lib.dataDir, raw);
      !(IsPrefix("data/", raw) && lib.isFile(Paths.Join(lib.dataDir, raw))) ==> p == full
    ensures lib.isFile(p) || p == ResolveFilepath(lib.dataDir, entry.filepath.GetOr(""))
  {
    var raw := entry.filepath.GetOr("");
    var full := ResolveFilepath(lib.dataDir, raw);
    if !lib.isFile(full) && IsPrefix("data/", raw) && lib.isFile(Paths.Join(lib.dataDir, raw)) then Paths.Join(lib.dataDir, raw)
    else full
  }

  /** The status reported for one found mechanism. */
  function StatusOf(lib: Library, m: Mechanism): (s: ComponentStatus)
    ensures s.componentId == InstanceId(m) && s.source == LibId(m)
  {
    var libId := LibId(m);
    match Get(lib.registry, libId)
    case None => ComponentStatus(InstanceId(m), "Missing", libId, "Not in registry")
    case Some(entry) =>
      var path := SourcePath(lib, entry);
      match lib.convert(path, libId)
      case Converted(_) => ComponentStatus(InstanceId(m), "Found", libId, "Loaded from " + Basename(path))
      case Threw(msg) => ComponentStatus(InstanceId(m), "Error", libId, msg)
  }

  /** A library id outside the registry is "Missing"; one inside is
      "Found" when its file converts and "Error" with the exception's
      message when the conversion raises. */
  lemma StatusCases(lib: Library, m: Mechanism)
    ensures var s := StatusOf(lib, m);
      && s.status in {"Found", "Error", "Missing"}
      && (s.status == "Missing" <==> !HasKey(lib.registry, LibId(m)))
      && (HasKey(lib.registry, LibId(m)) ==>
            var path := SourcePath(lib, Get(lib.registry, LibId(m)).value);
            match lib.convert(path, LibId(m))
            case Converted(_) => s.status == "Found" && s.message == "Loaded from " + Basename(path)
            case Threw(msg) => s.status == "Error" && s.message == msg)
  {
  }

  /** The component a found mechanism contributes: none, or the converted
      model with the registry's semantics merged in. */
  function LoadOf(lib: Library, m: Mechanism): (r: seq<Loaded>)
    ensures |r| <= 1
    ensures |r| == 1 <==> StatusOf(lib, m).status == "Found"
    ensures |r| == 1 ==> r[0].instanceHint == InstanceId(m)
  {
    match Get(lib.registry, LibId(m))
    case None => []
    case Some(entry) =>
      match lib.convert(SourcePath(lib, entry), LibId(m))
      case Converted(model) => [Loaded(InstanceId(m), InjectSemantics(model, entry))]
      case Threw(_) => []
  }

  /** The components of a list of found mechanisms, in order. */
  function Loads(lib: Library, ms: seq<Mechanism>): seq<Loaded>
    decreases |ms|
  {
    if |ms| == 0 then [] else Loads(lib, ms[..|ms| - 1]) + LoadOf(lib, ms[|ms| - 1])
  }

  /** How many statuses say "Found". */
  function FoundCount(ss: seq<ComponentStatus>): nat
    decreases |ss|
  {
    if |ss| == 0 then 0 else FoundCount(ss[..|ss| - 1]) + (if ss[|ss| - 1].status == "Found" then 1 else 0)
  }

  /** One more mechanism adds its own contribution. */
  lemma LoadsSnoc(lib: Library, found: seq<Mechanism>, i: nat)
    requires i < |found|
    ensures Loads(lib, found[..i + 1]) == Loads(lib, found[..i]) + LoadOf(lib, found[i])
  {
    assert found[..i + 1][..i] == found[..i];
  }

  /** A mechanism contributes a component exactly when its status says
      "Found". */
  lemma {:induction false} LoadsCount(lib: Library, found: seq<Mechanism>, ss: seq<ComponentStatus>)
    requires |ss| == |found| && forall i :: 0 <= i < |found| ==> ss[i] == StatusOf(lib, found[i])
    ensures |Loads(lib, found)| == FoundCount(ss)
    decreases |found|
  {
    if |found| > 0 {
      var n := |found| - 1;
      assert forall i :: 0 <= i < n ==> ss[..n][i] == StatusOf(lib, found[..n][i]);
      LoadsCount(lib, found[..n], ss[..n]);
      assert |LoadOf(lib, found[n])| == if ss[n].status == "Found" then 1 else 0;
      assert Loads(lib, found) == Loads(lib, found[..n]) + LoadOf(lib, found[n]);
    }
  }

  /** The loop over the found mechanisms: exactly one status each, in
      order, and one loaded component per "Found" status. */
  method Retrieve(lib: Library, found: seq<Mechanism>) returns (statuses: seq<ComponentStatus>, loaded: seq<Loaded>)
    ensures |statuses| == |found|
    ensures forall i :: 0 <= i < |found| ==> statuses[i] == StatusOf(lib, found[i])
    ensures loaded == Loads(lib, found)
    ensures |loaded| == FoundCount(statuses)
  {
    statuses := [];
    loaded := [];
    for i := 0 to |found|
      invariant |statuses| == i
      invariant forall j :: 0 <= j < i ==> statuses[j] == StatusOf(lib, found[j])
      invariant loaded == Loads(lib, found[..i])
    {
      LoadsSnoc(lib, found, i);
      statuses := statuses + [StatusOf(lib, found[i])];
      loaded := loaded + LoadOf(lib, found[i]);
    }
    assert found[..|found|] == found;
    LoadsCount(lib, found, statuses);
  }

  /** The instance id of a found mechanism without an `id` is its library
      id with "_inst" appended. */
  lemma DefaultInstanceId(lib: Library, m: Mechanism)
    requires m.id.None? && Truthy(m.libraryId)
    ensures StatusOf(lib, m).componentId == m.libraryId.value + "_inst"
  {
  }

  // ---------------------------------------------------------------------
  // Parameter agent
  // ---------------------------------------------------------------------

  /** The final package: its `code` entry (`None` when absent) and the
      other entries, passed through untouched. */
  datatype Package = Package(code: Option<string>, rest: Assoc<string, Json>)

  datatype AgentResult<T> = AgentResult(success: bool, data: T, report: string)

  const UnresolvedMarker := "[Unresolved]"

  const ParameterHeader := "# Parameter Report\nUnresolved: "

  /** `ParameterAgent.execute`: succeeds with the package unchanged and a
      report giving the number of non-overlapping "[Unresolved]" markers in
      the code (a missing code entry counts as empty). */
  function ParameterReport(p: Package): (r: AgentResult<Package>)
    ensures r.success && r.data == p
    ensures IsPrefix(ParameterHeader, r.report)
    ensures var digits := r.report[|ParameterHeader|..];
      (forall i :: 0 <= i < |digits| ==> IsDigit(digits[i])) && DigitsValue(digits) == Count(p.code.GetOr(""), UnresolvedMarker)
  {
    var n := Count(p.code.GetOr(""), UnresolvedMarker);
    NatToStringValue(n);
    var report := ParameterHeader + NatToString(n);
    assert report[|ParameterHeader|..] == NatToString(n);
    AgentResult(true, p, report)
  }

  /** Code without a marker reports zero; each marker in front adds one. */
  lemma MarkerCounts(code: string)
    ensures |code| < |UnresolvedMarker| ==> Count(code, UnresolvedMarker) == 0
    ensures Count(UnresolvedMarker + code, UnresolvedMarker) == 1 + Count(code, UnresolvedMarker)
  {
    var s := UnresolvedMarker + code;
    assert s[..|UnresolvedMarker|] == UnresolvedMarker;
    assert s[|UnresolvedMarker|..] == code;
  }
}
