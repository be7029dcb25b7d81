/** The CellML loader: a set of parsed documents (keyed by absolute path)
    becomes a table of components — variables and structured equations —
    and a list of connections. Imports are followed through a visited set,
    so self-imports and import cycles terminate. The file system is a
    parameter: a path maps to a parsed document or to a file that does not
    parse; a path outside the map does not exist. */
module CellML {
  import opened Wrappers
  import opened Strings
  import opened Seqs
  import opened Assoc
  import opened Paths
  import opened XmlTree
  import opened MathML

  const CellML10Ns := "http://www.cellml.org/cellml/1.0#"
  const CellML11Ns := "http://www.cellml.org/cellml/1.1#"
  const XlinkNs := "http://www.w3.org/1999/xlink"

  /** The three attributes recorded for a `variable` element. */
  datatype Variable = Variable(units: Option<string>, initialValue: Option<string>, publicInterface: Option<string>)

  /** A component entry. Variables are keyed by their `name` attribute,
      which may be absent; `equations` is the legacy text list, which the
      loader creates empty and never fills. */
  datatype Component = Component(
    variables: Assoc<Option<string>, Variable>,
    equations: seq<string>,
    structured: seq<Equation>)

  datatype Connection = Connection(c1: string, c2: string, vars: seq<(string, string)>)

  /** The root of a parsed document is always an element. */
  type Root = x: Xml | x.Element? witness Element("", "", None, [], [])

  datatype FileContent = Document(root: Root) | Unparseable

  /** What the loader reports (and otherwise ignores) about a file. */
  datatype Warning = NotFound(path: string) | XmlError(path: string)

  /** The loader's state. `parsed` lists, in order, the files whose
      contents were read. */
  datatype Loader = Loader(
    components: Assoc<string, Component>,
    connections: seq<Connection>,
    visited: set<string>,
    parsed: seq<string>,
    warnings: seq<Warning>)

  const EmptyLoader := Loader([], [], {}, [], [])

  const EmptyComponent := Component([], [], [])

  /** The CellML namespace of a document: 1.0 when the root's qualified
      tag mentions the 1.0 namespace, 1.1 otherwise. */
  function DetectNs(root: Root): (ns: string)
    ensures ns == CellML10Ns || ns == CellML11Ns
    ensures ns == CellML10Ns <==> Contains(QualifiedTag(root), CellML10Ns)
  {
    if Contains(QualifiedTag(root), CellML10Ns) then CellML10Ns else CellML11Ns
  }

  /** Where an import's `xlink:href` leads: resolved against the directory
      of the importing file and normalised. */
  function ImportPath(cwd: string, file: string, href: string): (r: string)
    requires IsAbs(cwd)
    ensures IsAbs(r)
    ensures IsAbs(file) ==> r == NormPath(Paths.Join(Dirname(file), href))
  {
    AbsPath(cwd, Paths.Join(Dirname(file), href))
  }

  // ---------------------------------------------------------------------
  // Components
  // ---------------------------------------------------------------------

  function VariableOf(v: Xml): Variable {
    Variable(Attr(v, "units"), Attr(v, "initial_value"), Attr(v, "public_interface"))
  }

  /** The variable declarations `vs` stored one after the other, each
      under its `name`: a later declaration overwrites an earlier one. */
  function PutVariables(m: Assoc<Option<string>, Variable>, vs: seq<Xml>): (r: Assoc<Option<string>, Variable>)
    ensures UniqueKeys(m) ==> UniqueKeys(r)
    ensures |m| <= |r| && forall i :: 0 <= i < |m| ==> r[i].0 == m[i].0
    ensures forall i :: |m| <= i < |r| ==> exists j :: 0 <= j < |vs| && r[i].0 == Attr(vs[j], "name")
    decreases |vs|
  {
    if |vs| == 0 then m
    else
      var prev := PutVariables(m, vs[..|vs| - 1]);
      var last := vs[|vs| - 1];
      var r := Put(prev, Attr(last, "name"), VariableOf(last));
      assert forall i :: 0 <= i < |prev| ==> r[i].0 == prev[i].0 by {
        if HasKey(prev, Attr(last, "name")) {
          assert Keys(r) == Keys(prev);
          assert forall i :: 0 <= i < |prev| ==> Keys(r)[i] == r[i].0 && Keys(prev)[i] == prev[i].0;
        }
      }
      assert forall j :: 0 <= j < |vs| - 1 ==> vs[..|vs| - 1][j] == vs[j];
      r
  }

  /** The equations of one `math` element. */
  function MathEquations(m: Xml): seq<Equation> {
    if m.Element? then ExtractFrom(m.children) else []
  }

  /** `_parse_component`: a nameless component is ignored; a named one is
      created empty if new, then its variables are stored and the
      equations of every `math` element beneath it appended. */
  function ParseComponent(st: Loader, comp: Xml, cns: string): (r: Loader)
    requires comp.Element?
    ensures r.connections == st.connections && r.visited == st.visited
    ensures r.parsed == st.parsed && r.warnings == st.warnings
    ensures !Truthy(Attr(comp, "name")) ==> r == st
    ensures Truthy(Attr(comp, "name")) ==> HasKey(r.components, Attr(comp, "name").value)
    ensures |st.components| <= |r.components|
    ensures forall i :: 0 <= i < |st.components| ==> r.components[i].0 == st.components[i].0
    ensures forall i :: 0 <= i < |st.components| && st.components[i].0 != Attr(comp, "name").GetOr("") ==>
      r.components[i] == st.components[i]
    ensures forall i :: |st.components| <= i < |r.components| ==> r.components[i].0 == Attr(comp, "name").GetOr("")
    ensures UniqueKeys(st.components) ==> UniqueKeys(r.components)
  {
    var name := Attr(comp, "name");
    if !Truthy(name) then st
    else
      var base := Get(st.components, name.value).GetOr(EmptyComponent);
      var merged := Component(
        PutVariables(base.variables, ChildrenNamed(comp.children, cns, "variable")),
        base.equations,
        base.structured + FlatMap(MathEquations, FindAll(comp, MathNs, "math")));
      var cs := Put(st.components, name.value, merged);
      PutShape(st.components, name.value, merged);
      PutHasKey(st.components, name.value, merged);
      st.(components := cs)
  }

  /** The components of a document, in document order. */
  function ParseComponents(st: Loader, comps: seq<Xml>, cns: string): (r: Loader)
    requires forall i :: 0 <= i < |comps| ==> comps[i].Element?
    ensures r.connections == st.connections && r.visited == st.visited
    ensures r.parsed == st.parsed && r.warnings == st.warnings
    ensures |st.components| <= |r.components|
    ensures forall i :: 0 <= i < |st.components| ==> r.components[i].0 == st.components[i].0
    ensures UniqueKeys(st.components) ==> UniqueKeys(r.components)
    ensures (forall i :: 0 <= i < |st.components| ==> st.components[i].0 != "") ==>
      forall i :: 0 <= i < |r.components| ==> r.components[i].0 != ""
    decreases |comps|
  {
    if |comps| == 0 then st
    else ParseComponents(ParseComponent(st, comps[0], cns), comps[1..], cns)
  }

  // ---------------------------------------------------------------------
  // Connections
  // ---------------------------------------------------------------------

  /** The pair of one `map_variables` element, kept only when both names
      are non-empty. */
  function PairOf(x: Xml): seq<(string, string)> {
    var v1 := Attr(x, "variable_1");
    var v2 := Attr(x, "variable_2");
    if Truthy(v1) && Truthy(v2) then [(v1.value, v2.value)] else []
  }

  predicate NamedPair(p: (string, string)) {
    p.0 != "" && p.1 != ""
  }

  predicate GoodConnection(c: Connection) {
    c.c1 != "" && c.c2 != "" && forall i :: 0 <= i < |c.vars| ==> NamedPair(c.vars[i])
  }

  /** `_parse_connection`: a connection without `map_components`, or with
      an empty component name, is not recorded. */
  function ParseConnection(st: Loader, conn: Xml, cns: string): (r: Loader)
    requires conn.Element?
    ensures r.components == st.components && r.visited == st.visited
    ensures r.parsed == st.parsed && r.warnings == st.warnings
    ensures |st.connections| <= |r.connections| <= |st.connections| + 1
    ensures r.connections[..|st.connections|] == st.connections
    ensures |r.connections| > |st.connections| <==>
      var mc := FirstNamed(conn.children, cns, "map_components");
      mc.Some? && Truthy(Attr(mc.value, "component_1")) && Truthy(Attr(mc.value, "component_2"))
    ensures |r.connections| > |st.connections| ==> GoodConnection(r.connections[|st.connections|])
  {
    match FirstNamed(conn.children, cns, "map_components")
    case None => st
    case Some(mc) =>
      var c1 := Attr(mc, "component_1");
      var c2 := Attr(mc, "component_2");
      var pairs := FlatMap(PairOf, ChildrenNamed(conn.children, cns, "map_variables"));
      FlatMapAll(PairOf, ChildrenNamed(conn.children, cns, "map_variables"), NamedPair);
      if Truthy(c1) && Truthy(c2) then
        st.(connections := st.connections + [Connection(c1.value, c2.value, pairs)])
      else st
  }

  function ParseConnections(st: Loader, conns: seq<Xml>, cns: string): (r: Loader)
    requires forall i :: 0 <= i < |conns| ==> conns[i].Element?
    ensures r.components == st.components && r.visited == st.visited
    ensures r.parsed == st.parsed && r.warnings == st.warnings
    ensures |st.connections| <= |r.connections| && r.connections[..|st.connections|] == st.connections
    ensures (forall i :: 0 <= i < |st.connections| ==> GoodConnection(st.connections[i])) ==>
      forall i :: 0 <= i < |r.connections| ==> GoodConnection(r.connections[i])
    decreases |conns|
  {
    if |conns| == 0 then st
    else ParseConnections(ParseConnection(st, conns[0], cns), conns[1..], cns)
  }

  // ---------------------------------------------------------------------
  // Files and imports
  // ---------------------------------------------------------------------

  /** `_parse_recursive`: a path is marked visited before anything else,
      so it is read at most once. A document's imports are followed first,
      then its components and its connections are read. */
  function ParseFile(fs: map<string, FileContent>, cwd: string, path: string, st: Loader): (r: Loader)
    requires IsAbs(cwd)
    ensures st.visited <= r.visited && path in r.visited
    ensures path in st.visited ==> r == st
    decreases fs.Keys - st.visited, 0
  {
    if path in st.visited then st
    else
      var st1 := st.(visited := st.visited + {path});
      if path !in fs then st1.(warnings := st1.warnings + [NotFound(path)])
      else
        match fs[path]
        case Unparseable => st1.(warnings := st1.warnings + [XmlError(path)])
        case Document(root) =>
          var cns := DetectNs(root);
          var st2 := ParseImports(fs, cwd, path, FindAll(root, cns, "import"), st1.(parsed := st1.parsed + [path]));
          var st3 := ParseComponents(st2, FindAll(root, cns, "component"), cns);
          ParseConnections(st3, FindAll(root, cns, "connection"), cns)
  }

  /** The `import` elements of `file`, in document order; an import
      without an `xlink:href` is skipped. */
  function ParseImports(fs: map<string, FileContent>, cwd: string, file: string, imps: seq<Xml>, st: Loader): (r: Loader)
    requires IsAbs(cwd)
    ensures st.visited <= r.visited
    decreases fs.Keys - st.visited, 1, |imps|
  {
    if |imps| == 0 then st
    else
      var href := Attr(imps[0], "{" + XlinkNs + "}href");
      var st1 := if Truthy(href) then ParseFile(fs, cwd, ImportPath(cwd, file, href.value), st) else st;
      ParseImports(fs, cwd, file, imps[1..], st1)
  }

  /** `parse_file(filepath)` on a fresh loader. */
  function Load(fs: map<string, FileContent>, cwd: string, filepath: string): (r: Loader)
    requires IsAbs(cwd)
    ensures AbsPath(cwd, filepath) in r.visited
  {
    ParseFile(fs, cwd, AbsPath(cwd, filepath), EmptyLoader)
  }

  // ---------------------------------------------------------------------
  // Invariants of the loader
  // ---------------------------------------------------------------------

  /** What every reachable loader state satisfies: each file was read at
      most once and only after being marked visited; every visited path is
      absolute; component names are unique and non-empty; every recorded
      connection names two components and only complete variable pairs. */
  predicate Good(fs: map<string, FileContent>, st: Loader) {
    && (forall i, j :: 0 <= i < j < |st.parsed| ==> st.parsed[i] != st.parsed[j])
    && (forall i :: 0 <= i < |st.parsed| ==> st.parsed[i] in st.visited && st.parsed[i] in fs)
    && (forall p :: p in st.visited ==> IsAbs(p))
    && UniqueKeys(st.components)
    && (forall i :: 0 <= i < |st.components| ==> st.components[i].0 != "")
    && (forall i :: 0 <= i < |st.connections| ==> GoodConnection(st.connections[i]))
  }

  /** How a loader state grows: nothing is ever removed or renamed. */
  predicate Grows(st: Loader, r: Loader) {
    && st.visited <= r.visited
    && |st.parsed| <= |r.parsed| && r.parsed[..|st.parsed|] == st.parsed
    && |st.components| <= |r.components|
    && (forall i :: 0 <= i < |st.components| ==> r.components[i].0 == st.components[i].0)
    && |st.connections| <= |r.connections| && r.connections[..|st.connections|] == st.connections
  }

  lemma GrowsTrans(a: Loader, b: Loader, c: Loader)
    requires Grows(a, b) && Grows(b, c)
    ensures Grows(a, c)
  {
    assert c.parsed[..|a.parsed|] == c.parsed[..|b.parsed|][..|a.parsed|];
    assert c.connections[..|a.connections|] == c.connections[..|b.connections|][..|a.connections|];
  }

  /** Reading the components and connections of a document keeps the
      invariant. */
  lemma {:induction false} ReadKeepsGood(fs: map<string, FileContent>, st: Loader, root: Root, cns: string)
    requires Good(fs, st)
    ensures var r := ParseConnections(ParseComponents(st, FindAll(root, cns, "component"), cns), FindAll(root, cns, "connection"), cns);
      Good(fs, r) && Grows(st, r)
  {
  }

  /** Marking an absolute path visited, with warnings, keeps the invariant. */
  lemma VisitKeepsGood(fs: map<string, FileContent>, st: Loader, path: string, w: seq<Warning>)
    requires Good(fs, st) && IsAbs(path)
    ensures var r := st.(visited := st.visited + {path}, warnings := st.warnings + w);
      Good(fs, r) && Grows(st, r)
  {
  }

  /** Starting to read an existing, unvisited file keeps the invariant. */
  lemma StartReadKeepsGood(fs: map<string, FileContent>, st: Loader, path: string)
    requires Good(fs, st) && IsAbs(path) && path !in st.visited && path in fs
    ensures var r := st.(visited := st.visited + {path}, parsed := st.parsed + [path]);
      Good(fs, r) && Grows(st, r)
  {
    var r := st.(visited := st.visited + {path}, parsed := st.parsed + [path]);
    assert path !in st.parsed;
    assert r.parsed[..|st.parsed|] == st.parsed;
  }

  /** Parsing a file from a good state yields a good state that extends it. */
  lemma {:induction false} ParseFileKeepsGood(fs: map<string, FileContent>, cwd: string, path: string, st: Loader)
    requires IsAbs(cwd) && IsAbs(path) && Good(fs, st)
    ensures Good(fs, ParseFile(fs, cwd, path, st)) && Grows(st, ParseFile(fs, cwd, path, st))
    decreases fs.Keys - st.visited, 0
  {
    if path in st.visited {
    } else if path !in fs {
      VisitKeepsGood(fs, st, path, [NotFound(path)]);
    } else if fs[path].Unparseable? {
      VisitKeepsGood(fs, st, path, [XmlError(path)]);
    } else {
      var root := fs[path].root;
      var cns := DetectNs(root);
      var st1 := st.(visited := st.visited + {path}, parsed := st.parsed + [path]);
      StartReadKeepsGood(fs, st, path);
      var imps := FindAll(root, cns, "import");
      ParseImportsKeepsGood(fs, cwd, path, imps, st1);
      var st2 := ParseImports(fs, cwd, path, imps, st1);
      ReadKeepsGood(fs, st2, root, cns);
      var r := ParseConnections(ParseComponents(st2, FindAll(root, cns, "component"), cns), FindAll(root, cns, "connection"), cns);
      assert ParseFile(fs, cwd, path, st) == r;
      GrowsTrans(st, st1, st2);
      GrowsTrans(st, st2, r);
    }
  }

  lemma {:induction false} ParseImportsKeepsGood(fs: map<string, FileContent>, cwd: string, file: string, imps: seq<Xml>, st: Loader)
    requires IsAbs(cwd) && Good(fs, st)
    ensures Good(fs, ParseImports(fs, cwd, file, imps, st)) && Grows(st, ParseImports(fs, cwd, file, imps, st))
    decreases fs.Keys - st.visited, 1, |imps|
  {
    if |imps| > 0 {
      var href := Attr(imps[0], "{" + XlinkNs + "}href");
      var st1 := if Truthy(href) then ParseFile(fs, cwd, ImportPath(cwd, file, href.value), st) else st;
      if Truthy(href) {
        ParseFileKeepsGood(fs, cwd, ImportPath(cwd, file, href.value), st);
      }
      var r := ParseImports(fs, cwd, file, imps[1..], st1);
      assert ParseImports(fs, cwd, file, imps, st) == r;
      ParseImportsKeepsGood(fs, cwd, file, imps[1..], st1);
      GrowsTrans(st, st1, r);
    }
  }

  /** Loading an entry file: every file was read at most once, every
      visited path is absolute, component names are unique and non-empty,
      and every connection is complete. */
  lemma LoadIsGood(fs: map<string, FileContent>, cwd: string, filepath: string)
    requires IsAbs(cwd)
    ensures Good(fs, Load(fs, cwd, filepath))
  {
    ParseFileKeepsGood(fs, cwd, AbsPath(cwd, filepath), EmptyLoader);
  }
  // ---------------------------------------------------------------------
  // What a component and a connection record
  // ---------------------------------------------------------------------

  /** Of several declarations of one variable name, the last one wins. */
  lemma {:induction false} LastDeclarationWins(m: Assoc<Option<string>, Variable>, vs: seq<Xml>, j: nat)
    requires UniqueKeys(m) && j < |vs|
    requires forall j' :: j < j' < |vs| ==> Attr(vs[j'], "name") != Attr(vs[j], "name")
    ensures Get(PutVariables(m, vs), Attr(vs[j], "name")) == Some(VariableOf(vs[j]))
    decreases |vs|
  {
    var k := Attr(vs[j], "name");
    var init := vs[..|vs| - 1];
    var last := vs[|vs| - 1];
    if j < |vs| - 1 {
      assert init[j] == vs[j];
      forall j' | j < j' < |init| ensures Attr(init[j'], "name") != k {
        assert init[j'] == vs[j'];
      }
      LastDeclarationWins(m, init, j);
      GetPutOther(PutVariables(m, init), Attr(last, "name"), VariableOf(last), k);
    }
  }

  /** A name no declaration carries keeps what it mapped to before. */
  lemma {:induction false} UndeclaredKept(m: Assoc<Option<string>, Variable>, vs: seq<Xml>, k: Option<string>)
    requires UniqueKeys(m)
    requires forall j :: 0 <= j < |vs| ==> Attr(vs[j], "name") != k
    ensures Get(PutVariables(m, vs), k) == Get(m, k)
    decreases |vs|
  {
    if |vs| > 0 {
      var init := vs[..|vs| - 1];
      var last := vs[|vs| - 1];
      assert forall j :: 0 <= j < |init| ==> init[j] == vs[j];
      UndeclaredKept(m, init, k);
      GetPutOther(PutVariables(m, init), Attr(last, "name"), VariableOf(last), k);
    }
  }

  /** A repeated component name merges into the existing entry: its
      equations are kept and the new ones appended, its variable names
      keep their places; every other component is untouched. */
  lemma ComponentMerges(st: Loader, comp: Xml, cns: string)
    requires comp.Element? && UniqueKeys(st.components) && Truthy(Attr(comp, "name"))
    ensures var name := Attr(comp, "name").value;
      var before := Get(st.components, name).GetOr(EmptyComponent);
      var after := Get(ParseComponent(st, comp, cns).components, name);
      && after.Some?
      && after.value.equations == before.equations
      && after.value.structured == before.structured + FlatMap(MathEquations, FindAll(comp, MathNs, "math"))
      && |before.variables| <= |after.value.variables|
      && (forall i :: 0 <= i < |before.variables| ==> after.value.variables[i].0 == before.variables[i].0)
    ensures forall n :: n != Attr(comp, "name").value ==>
      Get(ParseComponent(st, comp, cns).components, n) == Get(st.components, n)
  {
    var name := Attr(comp, "name").value;
    var before := Get(st.components, name).GetOr(EmptyComponent);
    var merged := Component(
      PutVariables(before.variables, ChildrenNamed(comp.children, cns, "variable")),
      before.equations,
      before.structured + FlatMap(MathEquations, FindAll(comp, MathNs, "math")));
    forall n | n != name ensures Get(ParseComponent(st, comp, cns).components, n) == Get(st.components, n) {
      GetPutOther(st.components, name, merged, n);
    }
  }

  /** The variable pairs of a connection are exactly the `map_variables`
      elements with both names non-empty. */
  lemma PairsExact(xs: seq<Xml>, a: string, b: string)
    ensures (a, b) in FlatMap(PairOf, xs) <==>
      a != "" && b != "" &&
      exists k :: 0 <= k < |xs| && Attr(xs[k], "variable_1") == Some(a) && Attr(xs[k], "variable_2") == Some(b)
  {
    FlatMapIn(PairOf, xs, (a, b));
    forall k | 0 <= k < |xs| {
      PairOfHolds(xs[k], a, b);
    }
  }

  /** One `map_variables` element yields `(a, b)` exactly when it carries
      both names and both are non-empty. */
  lemma PairOfHolds(x: Xml, a: string, b: string)
    ensures (a, b) in PairOf(x) <==> a != "" && b != "" && Attr(x, "variable_1") == Some(a) && Attr(x, "variable_2") == Some(b)
  {
  }
}
