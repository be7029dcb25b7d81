# CellModelComposer core in Dafny

This project models the core of CellModelComposer, a pipeline that builds
composite cell models out of CellML library components:

- **CellML loader** (`CellML`, `MathML`, `XmlTree`, `Paths`). It reads a CellML 1.0 or 1.1
  document and follows its imports, visiting each file at most once. It records
  components, variables and connections. It also linearizes every MathML `apply`
  into a Python expression string and classifies each equation as an ODE or as
  algebraic.
- **Bond-graph AST** (`BondGraph`). Nodes, bonds and models, and their
  dictionary round trip.
- **Library builder** (`LibraryBuilder`). It converts a loaded CellML file into a
  bond-graph model. It also does one registry-building pass: it derives protein
  ids from file names, skips entries already at version 4.0, and stores what the
  annotator returns.
- **Composition engine** (`Composition`):
  - the ontology scaffold of reservoirs;
  - cloning a component under an instance id;
  - deep variable search and the flux-name heuristic;
  - strict ontology matching, then the keyword fallback;
  - the export.
- **Small decision rules** around the core:
  - the retrieval and parameter agents (`BioAgents`);
  - the web server's status inference, key stripping and update whitelist (`Server`);
  - prompt normalisation and the per-model rate-limiter registry (`LlmCache`);
  - the analyst router (`Workflow`);
  - the legacy orchestrator state machine (`Orchestrator`).

Python dictionaries are ordered association lists (`Assoc`) whose keys are
unique after every operation. An exception the source catches is an
`Outcome.Raised` value. The clock, the file system, `uuid4` and the LLM are
parameters of the functions that use them:
- a `map` of file contents;
- an `isFile` predicate;
- a counter of fresh ids with a `hex` naming function;
- agent functions.

The main results:
- Loader:
  - any loader state reached from the empty one satisfies `Good`: each file is
    read at most once, and component names are unique;
  - variable declarations follow last-wins;
  - one failing equation skips only itself;
  - every extracted equation has non-empty sides, and an algebraic one has an
    identifier as its left side;
  - the worked linearizer examples hold.
- Bond-graph dictionaries: `from_dict(to_dict(m)) == m`.
- Converted models and composition sessions never contain a dangling bond.
- Strict reservoir matching returns the first compatible reservoir, and `"null"`
  counts as absence.
- Prompt normalisation:
  - it is idempotent;
  - it leaves no stop word and no upper-case letter;
  - it keeps its tokens in their original order;
  - it has no doubled whitespace.
- Server status inference reports "running" exactly when the current node is
  the planner.
- Orchestrator: a step always stops in a checkpoint, a failed phase or the end,
  and it succeeds exactly at the first checkpoint or at the end.

## Model

| member | source | states |
|---|---|---|
| CellML.ImportPath | src/backend/cellml_loader.py:53-57 | an import resolves to an absolute path: the normalised join of the importing file's directory and the href |
| CellML.PutVariables | src/backend/cellml_loader.py:76-82 | storing variable declarations keeps key uniqueness and the existing keys in place; every new key is the name of a declaration |
| CellML.LastDeclarationWins | src/backend/cellml_loader.py:76-82 | of several declarations of one variable name, the last one's units, initial value and interface are stored |
| CellML.UndeclaredKept | src/backend/cellml_loader.py:76-82 | a variable name no declaration carries keeps its previous entry |
| CellML.ParseComponent | src/backend/cellml_loader.py:65-85 | a nameless component changes nothing; a named one is present afterwards; other components are untouched; connections and visited files are unchanged |
| CellML.ComponentMerges | src/backend/cellml_loader.py:69-85 | a repeated component name merges into the existing entry rather than replacing it, and every other component keeps its entry |
| CellML.ParseComponents | src/backend/cellml_loader.py:59-60 | components are parsed in document order, keeping key uniqueness and the names already present |
| CellML.ParseConnection | src/backend/cellml_loader.py:87-101 | at most one connection is appended; exactly one when `map_components` exists with both component names, and it then carries only pairs with both names |
| CellML.PairsExact | src/backend/cellml_loader.py:94-98 | a pair is recorded exactly when some `map_variables` element carries both names |
| CellML.ParseConnections | src/backend/cellml_loader.py:62-63 | connections are appended in document order, the old ones kept as a prefix, all well-formed |
| CellML.ParseFile | src/backend/cellml_loader.py:31-38 | a path is marked visited before anything else; an already-visited path changes nothing (termination on import cycles) |
| CellML.ParseImports | src/backend/cellml_loader.py:53-57 | following imports only adds visited files |
| CellML.Load | src/backend/cellml_loader.py:23-29 | `parse_file` on a fresh loader visits the absolute form of the entry path |
| CellML.ReadKeepsGood | src/backend/cellml_loader.py:59-63 | reading a document's components and connections preserves the loader invariant |
| CellML.ParseFileKeepsGood | src/backend/cellml_loader.py:31-63 | parsing a file from a good state yields a good state that only grows: each file read at most once, missing and unparseable files only warned about |
| CellML.ParseImportsKeepsGood | src/backend/cellml_loader.py:53-57 | following any list of imports from a good state yields a good state that only grows |
| CellML.LoadIsGood | src/backend/cellml_loader.py:23-63 | loading any entry file from any file system ends in a good state |
| MathML.NonEmpty | src/backend/cellml_loader.py:170 | the surviving arguments are non-empty members of the original list |
| MathML.LinearizeArgs | src/backend/cellml_loader.py:169 | a successful argument list has one string per element argument |
| MathMLLemmas.ArgsAsList | src/backend/cellml_loader.py:169 | each argument is linearized with `is_root=False`, independent of the parent |
| MathMLLemmas.LinearizeApplyOf | src/backend/cellml_loader.py:165-202 | an `apply` renders its operator over the linearized element arguments |
| MathMLLemmas.TokenLeaves | src/backend/cellml_loader.py:157-158 | a `ci` gives its stripped text or "", a `cn` its stripped text or "0" |
| MathMLLemmas.StripHasNoOuterSpace | src/backend/cellml_loader.py:157 | a stripped token has no leading or trailing whitespace |
| MathMLLemmas.StripOfTrimmed | src/backend/cellml_loader.py:157 | stripping text without outer whitespace leaves it unchanged |
| MathMLLemmas.TokenOf | src/backend/cellml_loader.py:157-158 | a `ci`/`cn` with trimmed text renders as exactly that text |
| MathMLLemmas.ConstantLeaves | src/backend/cellml_loader.py:159-163 | `true`, `false`, `pi`, `exponentiale`, `infinity` give `True`, `False`, `np.pi`, `np.e`, `np.inf` whatever their content |
| MathMLLemmas.UnknownTagIsEmpty | src/backend/cellml_loader.py:154-222 | a comment or unrecognised tag gives "" and never raises |
| MathMLLemmas.ApplyOpRaisesIffShort | src/backend/cellml_loader.py:173-202 | an operator raises (IndexError) exactly when fewer arguments survive than it indexes |
| MathMLLemmas.UnknownOperatorIsCall | src/backend/cellml_loader.py:202 | an operator outside the table renders as `op(a, b, …)` and never raises |
| MathMLLemmas.ApplyWithoutElements | src/backend/cellml_loader.py:166-167 | an `apply` without element children gives "" |
| MathMLLemmas.ApplyDependsOnlyOnElements | src/backend/cellml_loader.py:166 | two `apply` elements with the same element children render alike |
| MathMLLemmas.CommentIsSkipped | src/backend/cellml_loader.py:166 | a comment among the children is not an element child |
| MathMLLemmas.EmptyArgumentIsDropped | src/backend/cellml_loader.py:169-170 | an argument rendering as "" is filtered out, not passed to the operator |
| MathMLLemmas.EmptyValueIsDropped | src/backend/cellml_loader.py:170 | an empty argument value changes nothing in the rendered operator |
| MathMLLemmas.RootFlagOnlyAffectsEq | src/backend/cellml_loader.py:173 | `is_root` changes only how a top-level `eq` renders |
| MathMLLemmas.EqRendering | src/backend/cellml_loader.py:173 | `eq` renders `a = b` at the root and `a == b` when nested |
| MathMLLemmas.NaryRendering | src/backend/cellml_loader.py:174-182 | two non-empty arguments of an n-ary operator render as `(a op b)` |
| MathMLLemmas.InfixRendering | src/backend/cellml_loader.py:177-187 | two non-empty arguments of a binary operator render as `(a op b)` |
| MathMLLemmas.PlusExample | src/backend/cellml_loader.py:174 | `plus(a, b)` gives `(a + b)` |
| MathMLLemmas.DivideExample | src/backend/cellml_loader.py:177 | `divide(a, b)` gives `(a / b)` |
| MathMLLemmas.UnaryMinus | src/backend/cellml_loader.py:175 | `minus` with one surviving argument is unary negation |
| MathMLLemmas.FoldPiecesIsLoop | src/backend/cellml_loader.py:218-219 | the nested piecewise expression equals the source's reversed loop over the pairs |
| MathMLLemmas.OnePiece | src/backend/cellml_loader.py:208-213 | a piece with two element children contributes its (value, condition) pair |
| MathMLLemmas.PiecewiseDefault | src/backend/cellml_loader.py:214-220 | a piecewise without pieces or `otherwise` gives "0.0" |
| MathMLLemmas.ExtractAppend | src/backend/cellml_loader.py:107-151 | equations are appended in document order |
| MathMLLemmas.FailingEquationIsSkipped | src/backend/cellml_loader.py:110-151 | an equation that raises is skipped and its neighbours are still extracted |
| MathMLLemmas.ClassifyWellFormed | src/backend/cellml_loader.py:114-147 | a kept equation has non-empty sides; an algebraic one has an identifier on the left |
| MathMLLemmas.ExtractedEquationsWellFormed | src/backend/cellml_loader.py:107-151 | every extracted equation is well formed |
| MathMLLemmas.OdeShape | src/backend/cellml_loader.py:114-134 | `eq(diff(bvar, x), rhs)` with non-empty sides is the ODE `{ode, x, rhs}` |
| MathMLLemmas.DiffIsNeverAlgebraic | src/backend/cellml_loader.py:118-134 | a diff-shaped left side with three children is never stored as algebraic |
| MathMLLemmas.OdeExample | src/backend/cellml_loader.py:114-134 | `d x / d t = rhs` gives `{ode, "x", "rhs"}` |
| BondGraph.NodeFromDict | src/backend/bg_ast.py:35-54 | `name` and `type` are required (else raises); a missing id draws one fresh id; absent fields default to empty. Python evaluates `uuid4()` even when an id is given; the model draws a fresh id only when it is used, which no caller can observe |
| BondGraph.NodeToDict | src/backend/bg_ast.py:22-33 | every field is written, so `NodeFromDict` reads the node back |
| BondGraph.BondFromDict | src/backend/bg_ast.py:71-80 | both endpoints are required; the causal stroke defaults to none |
| BondGraph.BondToDict | src/backend/bg_ast.py:63-69 | `BondFromDict` undoes it |
| BondGraph.AddNode | src/backend/bg_ast.py:89-90 | keyed by id: re-adding an id replaces that entry in place, a new id is appended |
| BondGraph.AddBond | src/backend/bg_ast.py:92-96 | exactly one bond is appended, between the two nodes' ids, with empty metadata when none is given |
| BondGraph.AddNodesIds | src/backend/bg_ast.py:89-90 | after adding nodes, the ids present are the old ones and the added ones |
| BondGraph.AddNodesLastWins | src/backend/bg_ast.py:89-90 | an id maps to the last added node carrying it |
| BondGraph.KeptWhenNotAdded | src/backend/bg_ast.py:89-90 | an id none of the added nodes carries keeps its entry |
| BondGraph.AddNodesAppend | src/backend/bg_ast.py:89-90 | distinct new ids are appended in order |
| BondGraph.ModelToDict | src/backend/bg_ast.py:102-109 | nodes in insertion order and bonds in order |
| BondGraph.ModelFromDict | src/backend/bg_ast.py:111-127 | succeeds exactly when `name` and `protein_id` are present, every node dict has a name and a type, and every bond dict has both endpoints; the nodes are the node dicts added in order, and the bonds are the bond dicts read one for one, whatever nodes they name |
| BondGraph.DanglingBondAccepted | src/backend/bg_ast.py:120-125 | a bond between two ids that are not nodes is read back as it is, so `from_dict` can yield a model with a dangling bond |
| BondGraph.BondsRoundTrip | src/backend/bg_ast.py:63-80 | reading back the serialised bond list yields the model's bonds |
| BondGraph.ModelRoundTrip | src/backend/bg_ast.py:102-127 | `from_dict(to_dict(m)) == m` for every model keyed by id, consuming no fresh id |
| LibraryBuilder.Params | src/backend/library_builder.py:31-35 | a parameter exists exactly for each variable with a non-empty initial value; the last declaration's value is parsed as a float, or kept raw |
| LibraryBuilder.ComponentNodes | src/backend/library_builder.py:30-49 | one `CellMLComponent` node per component, in order, named after the component, with pairwise distinct fresh ids; its parameters are the variables with an initial value, its metadata holds the equations, structured equations and variables, and its ports, variables, laws and system properties are empty |
| LibraryBuilder.ComponentNodesAdded | src/backend/library_builder.py:50 | the component nodes land in the model in order |
| LibraryBuilder.NameMapLookup | src/backend/library_builder.py:52 | with unique names, the name map finds each node under its name and nothing else |
| LibraryBuilder.ComponentNamesFound | src/backend/library_builder.py:52 | the name map of the component nodes finds each component's node |
| LibraryBuilder.LinkAll | src/backend/library_builder.py:53-56 | linking leaves the name, protein id and nodes untouched |
| LibraryBuilder.LinkAllAppends | src/backend/library_builder.py:53-56 | linking appends, connection by connection, what each one contributes |
| LibraryBuilder.LinkAllBonds | src/backend/library_builder.py:53-56 | exactly one bond per connection whose two components are both nodes, in order; the others are dropped |
| LibraryBuilder.ExpectedBonds | src/backend/library_builder.py:53-56 | every expected bond joins two of the component nodes' ids |
| LibraryBuilder.Convert | src/backend/library_builder.py:25-58 | the model is `<protein>_Model`, keyed by id, one node per component in order, and its bonds are the expected ones |
| LibraryBuilder.ConvertNoDangling | src/backend/library_builder.py:25-58 | a converted model has no dangling bond |
| LibraryBuilder.LoadAndConvert | src/backend/library_builder.py:25-28 | the converted model has one node per component the loader found |
| LibraryBuilder.ReplaceAbsent | src/backend/library_builder.py:113 | replacing a pattern that does not occur changes nothing |
| LibraryBuilder.StripCellmlSuffix | src/backend/library_builder.py:113 | a dot-free name followed by ".cellml" loses exactly the suffix |
| LibraryBuilder.ProteinIdOfLibraryFile | src/backend/library_builder.py:112-113 | `BG_<x>.cellml` yields protein id `x` |
| LibraryBuilder.Stamped | src/backend/library_builder.py:154-165 | the stored entry has the file path, version 4.0, and always a ports, variables, laws and system-properties field: the annotation's own when given, otherwise empty |
| LibraryBuilder.Ingest | src/backend/library_builder.py:111-168 | a non-candidate or up-to-date file leaves the registry as it was; otherwise a successful annotation stores a version-4.0 entry with the file path and all four semantic fields under the protein id, and a failed one changes nothing |
| LibraryBuilder.Build | src/backend/library_builder.py:103-125 | keys stay unique, and every path reported as ingested is one of the walked paths whose file name ends in `.cellml` and does not start with `units`, `param`, `constant` or `ion` |
| LibraryBuilder.BuildKeepsUpToDate | src/backend/library_builder.py:116-119 | an entry already at version 4.0 or later comes out of the build unchanged |
| LibraryBuilder.BuildRegisters | src/backend/library_builder.py:103-125 | every walked candidate whose entry is stale and whose annotation succeeds ends up registered at version 4.0 |
| Composition.ValidIsWellFormed | src/backend/composition_engine.py:12-16 | the engine invariant implies the model is keyed by id, no bond dangles and every reservoir's node exists |
| Composition.AddReservoir | src/backend/composition_engine.py:25-52 | one junction node, one reservoir and one log line per domain, with a fresh id |
| Composition.AddReservoirs | src/backend/composition_engine.py:25-52 | one reservoir and log line per domain, in order; bonds untouched |
| Composition.AddReservoirsValid | src/backend/composition_engine.py:25-52 | the invariant is kept and the junction nodes are appended in order |
| Composition.CreateScaffold | src/backend/composition_engine.py:23-52 | a header line, then one reservoir per domain in order, with node ids drawn fresh |
| Composition.ScaffoldReservoir | src/backend/composition_engine.py:25-50 | the i-th new reservoir is the one built from the i-th domain with the i-th fresh id |
| Composition.ScaffoldJunction | src/backend/composition_engine.py:36-44 | the i-th domain's junction node is in the scaffold's model under the i-th fresh id |
| Composition.ScaffoldContents | src/backend/composition_engine.py:26-50 | the i-th reservoir is named after the i-th domain's id, or `Scaffold_<hex>` without one; its semantics has the domain's ids and labels, with "Unknown" for a missing label; its node id is the i-th fresh id, and the junction node under it carries the same name and semantics |
| Composition.Clones | src/backend/composition_engine.py:61-75 | each clone is named `<instance>_<name>`, gets the next fresh id (so the clones' ids are pairwise distinct), and keeps every other field of its source node |
| Composition.IdMapDomain | src/backend/composition_engine.py:74 | the id map is defined exactly on the source node ids and maps into the fresh ids |
| Composition.IdMapOfDistinct | src/backend/composition_engine.py:74 | with distinct ids, the i-th source id maps to the i-th fresh id |
| Composition.CloneBondsExact | src/backend/composition_engine.py:78-86 | a bond is cloned exactly when both endpoints are in the id map, with endpoints mapped and stroke and metadata kept |
| Composition.CloneBondsEnds | src/backend/composition_engine.py:78-86 | every cloned bond joins two fresh clone ids |
| Composition.CloneComponent | src/backend/composition_engine.py:54-86 | the log line, the clones appended and the cloned bonds appended; the invariant is kept |
| Composition.FirstWithPorts | src/backend/composition_engine.py:91-95 | the first clone with a non-empty ports map, or none when no clone has ports |
| Composition.DeepSearch | src/backend/composition_engine.py:123-136 | the first clone with an equation whose left side is the flow variable; none exactly when no clone computes it (and never for an empty name) |
| Composition.Fluxes | src/backend/composition_engine.py:144-149 | the candidates of one node are its non-ODE left sides with a flux prefix |
| Composition.Candidates | src/backend/composition_engine.py:141-149 | a candidate is exactly a (clone, flux name) pair |
| Composition.FluxOfIsFluxName | src/backend/composition_engine.py:147 | every candidate starts with `I_`, `i_`, `v_` or `J_` |
| Composition.Locate | src/backend/composition_engine.py:118-163 | deep search wins when it finds a node; an electrical port key takes the first candidate, in clone-then-equation order, whose name starts with `I` or `i`, and stays unfound when there is none; any other port takes the first candidate |
| Composition.FindCompatible | src/backend/composition_engine.py:198-227 | none when the port has no physics id; otherwise the first reservoir that is compatible, none exactly when no reservoir is |
| Composition.NullEntityIsAbsent | src/backend/composition_engine.py:208-215 | the entity `"null"` is treated as absent on either side |
| Composition.ElectricalIgnoresMissingEntity | src/backend/composition_engine.py:220-224 | for the electrical physics id, entities only block a match when both are present and differ |
| Composition.OtherPhysicsNeedsEntity | src/backend/composition_engine.py:220-222 | for any other physics id, a compatible reservoir has the same entity |
| Composition.Fallback | src/backend/composition_engine.py:229-263 | the first reservoir whose labels the keyword rules accept; none exactly when none does |
| Composition.Match | src/backend/composition_engine.py:166-168 | when the port has a physics id and some reservoir is compatible, the first compatible reservoir is chosen; only otherwise the first reservoir the keyword fallback accepts; none exactly when both searches fail |
| Composition.PhysicsTaggedPortFallsBack | src/backend/composition_engine.py:166-168 | a port with a physics id but no compatible reservoir still goes through the keyword fallback |
| Composition.ResolvePort | src/backend/composition_engine.py:101-196 | nodes and reservoirs unchanged and the log extended; a match appends one scaffold-link bond from the computing node; no match appends no bond and logs "[Unresolved]" |
| Composition.ResolvePortLinks | src/backend/composition_engine.py:170-194 | every bond a port adds is that port's link to a matched reservoir |
| Composition.ResolvePortValid | src/backend/composition_engine.py:189-194 | the added bond's endpoints exist, so the invariant is kept |
| Composition.ResolvePorts | src/backend/composition_engine.py:101-196 | at most one bond per port, the old bonds kept as a prefix |
| Composition.ResolvePortsLinks | src/backend/composition_engine.py:101-196 | every bond added while resolving the ports is a port link |
| Composition.ResolvePortsValid | src/backend/composition_engine.py:101-196 | resolving the ports keeps the invariant |
| Composition.AddComponent | src/backend/composition_engine.py:54-99 | the clones and cloned bonds are added; without a port-definition node only the warning is logged |
| Composition.AddComponentLinks | src/backend/composition_engine.py:54-196 | past the cloned bonds, every added bond is a port link of the port-definition node |
| Composition.AddComponentValid | src/backend/composition_engine.py:54-196 | adding a component keeps the invariant |
| Composition.ExportSystem | src/backend/composition_engine.py:265-266 | the exported model of a valid engine is keyed by id and has no dangling bond |
| Composition.RunValid | src/backend/composition_engine.py:23-196 | any sequence of scaffold and component calls keeps the invariant |
| Composition.SessionHasNoDanglingBond | src/backend/composition_engine.py:12-266 | every exported model of any session has no dangling bond |
| BioAgents.ResolveFilepath | src/backend/bio_agents.py:267-272 | absolute paths are kept; other paths are joined under the data directory |
| BioAgents.DataSegmentNotDoubled | src/backend/bio_agents.py:269-271 | with a data directory ending in "data", a "data/" prefix is not doubled |
| BioAgents.OtherDataDirJoinsWhole | src/backend/bio_agents.py:272 | any other data directory joins the whole relative path |
| BioAgents.RelativeStaysUnderDataDir | src/backend/bio_agents.py:267-272 | a relative path resolves under the data directory |
| BioAgents.InjectSemantics | src/backend/bio_agents.py:329-333 | only the first node changes, and only in the four fields the entry carries; an empty model is unchanged |
| BioAgents.InjectIdempotent | src/backend/bio_agents.py:329-333 | injecting twice is injecting once |
| BioAgents.InjectEmptyEntry | src/backend/bio_agents.py:332-333 | an entry with none of the four keys changes nothing (the builder never writes such an entry) |
| BioAgents.InjectBuilderEntry | src/backend/bio_agents.py:329-333 | an entry the builder stored from an annotation without the four keys resets the first node's ports, variables, laws and system properties to empty |
| BioAgents.InjectKeepsKeyedById | src/backend/bio_agents.py:329-333 | injection keeps the model keyed by id |
| BioAgents.Partition | src/backend/bio_agents.py:281-283 | found and missing are the mechanisms with and without a truthy library id, in order, and together a permutation of the input |
| BioAgents.StatusOf | src/backend/bio_agents.py:286-306 | the status carries the instance id (default `<lib>_inst`) and the library id |
| BioAgents.StatusCases | src/backend/bio_agents.py:289-306 | "Missing" exactly when the id is not registered; "Found" exactly when the conversion succeeds; otherwise "Error" with its message |
| BioAgents.LoadOf | src/backend/bio_agents.py:297-302 | a model is loaded exactly when the status is "Found", with the instance id as hint |
| BioAgents.LoadsCount | src/backend/bio_agents.py:285-306 | the models loaded for the found mechanisms are exactly as many as the "Found" statuses |
| BioAgents.Retrieve | src/backend/bio_agents.py:285-306 | one status per found mechanism, in order, and as many loaded models as "Found" statuses |
| BioAgents.DefaultInstanceId | src/backend/bio_agents.py:287 | without an explicit id the instance id is `<library_id>_inst` |
| BioAgents.SourcePath | src/backend/bio_agents.py:292-296 | the resolved path when it exists; otherwise, for a raw path starting with `data/`, the un-stripped join onto the data directory when that exists; else the resolved path. The result exists or is the resolved path |
| BioAgents.ParameterReport | src/backend/bio_agents.py:520-523 | always succeeds, returns the package unchanged, and reports the number of "[Unresolved]" markers in the code |
| BioAgents.MarkerCounts | src/backend/bio_agents.py:522 | the count sees one more marker when the code starts with one |
| Server.PendingNode | src/backend/server.py:133-145 | the first of retriever, composer, researcher, analyst among the pending nodes |
| Server.InferPosition | src/backend/server.py:118-162 | success gives complete/success and failure gives analyst/error, whatever else the state holds |
| Server.InterruptBeatsArtifacts | src/backend/server.py:133-145 | a pending interrupt (planner not pending) decides the position before any artifact |
| Server.NoSpecRunsPlanner | src/backend/server.py:119-121 | with no outcome, no interrupt and no spec, the default stands: the planner is running |
| Server.ArtifactsDecide | src/backend/server.py:148-159 | with a spec and no interrupt, the status is paused: at the analyst for a simulation report or curator output, else at the researcher for a composite model, else at the composer for physicist output, else at the retriever |
| Server.RunningIffPlanner | src/backend/server.py:118-162 | the status is "running" exactly when the node is the planner; node and status range over the frontend's values |
| Server.LastUpdated | src/backend/server.py:164-167 | the file's modification time when given, else the clock |
| Server.FrontendMessages | src/backend/server.py:169-177 | one agent message per raw message, in order, the last stamped `lastUpdated`, consecutive stamps 1000 ms apart |
| Server.SerializeState | src/backend/server.py:118-177 | the inferred position, the timestamp and one message per raw message |
| Server.SavedState | src/backend/server.py:55-57 | the saved copy has no "api_key", holds only entries of the state, and keeps every other entry |
| Server.SavedKeepsOtherKeys | src/backend/server.py:55-57 | every key but "api_key" keeps its value |
| Server.UpdateStatePart | src/backend/server.py:273-283 | rejected with 400 "Invalid key" exactly when the key is outside the six-key whitelist; otherwise the key gets the value |
| Server.UpdateTouchesOnlyKey | src/backend/server.py:281-283 | an accepted update leaves every other key as it was |
| Server.ApiKeyNotEditable | src/backend/server.py:273-283 | "api_key" is outside the whitelist, so no update can overwrite it |
| LlmCache.Scrub | src/backend/llm_cache.py:114 | every character outside word characters, whitespace, `.` and `-` becomes a space; the rest are kept |
| LlmCache.NormalizePrompt | src/backend/llm_cache.py:112 | empty input gives "" |
| LlmCache.NormalizedChars | src/backend/llm_cache.py:113-121 | the output has no upper-case letter, no scrubbed character and no whitespace but single spaces |
| LlmCache.NormalizedTokens | src/backend/llm_cache.py:115-121 | the output's tokens are exactly the non-stop-word tokens, in their original order |
| LlmCache.NormalizedSpacing | src/backend/llm_cache.py:121 | no leading, trailing or doubled space |
| LlmCache.NormalizeIdempotent | src/backend/llm_cache.py:108-121 | normalising twice equals normalising once |
| LlmCache.LimitsFor | src/backend/llm_cache.py:33-37 | the model's own non-empty settings win; then the "default" entry; then 15 rpm |
| LlmCache.NewLimiter | src/backend/llm_cache.py:31-40 | rpm times delay is 60 seconds; an rpm of 0 raises |
| LlmCache.UnconfiguredModelDefaults | src/backend/llm_cache.py:36-40 | an unconfigured model gets 15 rpm, a 4-second delay |
| LlmCache.GetRateLimiter | src/backend/llm_cache.py:53-56 | a known model gets its registered limiter and the registry is unchanged; a new one is created and registered, keys staying unique |
| LlmCache.SameLimiterTwice | src/backend/llm_cache.py:53-56 | asking twice for one model yields the same limiter and the second call changes nothing |
| LlmCache.OtherLimitersKept | src/backend/llm_cache.py:53-56 | a lookup never disturbs another model's limiter |
| Workflow.ShouldContinue | src/backend/graph_workflow.py:32-38 | success routes to the end whatever the attempts; otherwise fewer than 3 attempts (missing counts as 0) route to the researcher, else to a human |
| Workflow.AnalystRounds | src/backend/graph_nodes.py:178-181 | each analyst visit records one more attempt before the router decides; the loop produces at most one route per visit and at least one when there is a visit |
| Workflow.RetriesBounded | src/backend/graph_workflow.py:32-38 | with the analyst counting its visits, the researcher loop is left after at most three analyst visits |
| Workflow.FreshFailuresEscalate | src/backend/graph_workflow.py:32-38 | three failing visits from a fresh state go researcher, researcher, human |
| Orchestrator.Dispatch | src/backend/orchestrator.py:49-118 | one phase's work either stops in a stop phase (success exactly at the first checkpoint or the end) or hands over to a later phase |
| Orchestrator.RunStep | src/backend/orchestrator.py:44-118 | a step stops at a checkpoint, a failed phase or the end; it succeeds exactly at HITL_1 or FINALIZING; the prompt is kept and an idle machine stays idle |
| Orchestrator.StartPipeline | src/backend/orchestrator.py:38-42 | the prompt is recorded and the run starts from decomposition, so it never ends idle |
| Orchestrator.CheckpointResumes | src/backend/orchestrator.py:67-73 | HITL_1..4 resume at RETRIEVING, COMPOSING, PARAMETRIZING, FINALIZING, without feedback |
| Orchestrator.DecompositionFails | src/backend/orchestrator.py:50-64 | a failing decomposition stays in DECOMPOSING, returns the agent's result, records the decomposition report and leaves the spec unset |
| Orchestrator.FailureDoesNotAdvance | src/backend/orchestrator.py:76-100 | a failing retrieval or composition stops in its own phase with its report recorded and the payload unchanged |
| Orchestrator.DecomposeHandsOver | src/backend/orchestrator.py:50-64 | a successful decomposition without review records its report and spec and moves to RETRIEVING |
| Orchestrator.RetrieveHandsOver | src/backend/orchestrator.py:76-85 | a successful retrieval records its report and components and moves to COMPOSING |
| Orchestrator.ComposeHandsOver | src/backend/orchestrator.py:88-100 | a successful composition records its report and composite model and moves to PARAMETRIZING |
| Orchestrator.ParametrizingFinishes | src/backend/orchestrator.py:103-116 | parametrisation always finishes: its data becomes the final package and the result |
| Orchestrator.DecompositionCheckpoint | src/backend/orchestrator.py:55-62 | a decomposition asking for review pauses at HITL_1 unless feedback is given |
| Orchestrator.HappyPath | src/backend/orchestrator.py:49-116 | with every agent succeeding and no review asked, one call runs the whole pipeline in order |
| Orchestrator.IdleIsUnknownState | src/backend/orchestrator.py:118 | an unstarted machine answers "Unknown State" and stays idle |

## Left out

- XML parsing by lxml is not modelled: documents are given as trees, and a file that fails to parse is `Unparseable`.
- `float()` parsing of initial values is a parameter.
- Floating-point numbers are reals, including the version comparison with 4.0 and the limiter's 60/rpm.
- Case mapping and the character classes `\w` and `\s` are approximated on ASCII. A non-ASCII character counts as a word character, and Unicode case folding is not modelled.
- `uuid4` ids are a counter of fresh ids. `uuid4().hex[:8]` scaffold names come from a `hex` parameter.
- I/O is not modelled: the file system, the clock, `os.walk`, registry and cache files, printing and logging files. Each is either a parameter or dropped; only the engine's in-memory log buffer is kept.
- The LLM calls are not modelled: annotation, decomposition, synthesis, drafting and reports. They are parameter functions, or the decisions around them are modelled with the call's result as input.
- JSON payloads outside the schema the pipeline produces are opaque `Json` values.
- An explicit JSON `null` and an absent key are not distinguished, except where the source compares with the string "null".
- LibraryBuilder.Ingest: an annotation that gives `ports`, `variables`, `constitutive_laws` or `system_properties` with a JSON `null` value is stored with the empty default, where Python would store `None`; an omitted key gets the empty default in both.
- BioAgents.Retrieve: batch synthesis of missing mechanisms is an LLM call and is left out. Only the partition that feeds it is modelled.
- BioAgents.LoadOf: the `instance_id_hint` attribute set on a loaded model is modelled as a (hint, model) pair.
- LlmCache.NewLimiter: the limiter's `wait` timing is left out (wall clock and sleeping), and so are the md5 cache keys.
- Server.InferPosition: the final `else` of the artifact branch (server.py:160-162) is unreachable, because its guard repeats the enclosing `spec` test, so it has no counterpart.
- Server.UpdateStatePart: the graph update, the save and the 500 error paths are framework I/O and are left out.
- Server.StateView: a state whose `simulation_status` is present but not a string is read as absent.
- Server.SerializeState: the messages are given as their `str()` texts.
- Server.SerializeState: the millisecond timestamps are given already truncated to integers.
- Orchestrator.RunStep: the final report is a parameter function, because it reads the clock.
- Orchestrator.RunStep: the phases are the ten names the code sets. A state string outside them (for example an unknown `HITL_x`, which would recurse forever) cannot be represented.
- Workflow.ShouldContinue: an `analyst_attempts` value that is present but not an integer (Python would raise TypeError) is not representable.
- The rest of the graph wiring is left out: graph_nodes, the langgraph builder and the FastAPI endpoints other than the rules above.

## Where the code and its comments differ

The model follows the code in each case:

- **Heuristic reservoir fallback.** Its docstring calls it the fallback "for when Semantic Tags are missing" (composition_engine.py:231-232). The code calls it whenever the strict match fails, so ports that carry a physics id reach it too (composition_engine.py:166-168, `Composition.PhysicsTaggedPortFallsBack`).
- **Flux preference by port type.** The comments say an electrical port should prefer `I_`/`i_` candidates and a chemical one `v_`/`J_` candidates (composition_engine.py:153 and 159). In the code an electrical port key with no current-like candidate stays unresolved. It does not fall back to another candidate. Any other port takes the first candidate whatever its prefix (composition_engine.py:152-163, `Composition.Locate`).
