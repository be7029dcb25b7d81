/** The MathML linearizer: a parsed XML element tree becomes canonical
    Python-flavoured expression text, and each top-level `apply(eq, …)` of
    a `math` block is classified as an ODE or an algebraic equation, or
    dropped. Python exceptions (an `IndexError` on a too-short argument
    list, an `AttributeError` on a comment node) are `Raised`. */
module MathML {
  import opened Wrappers
  import opened Strings
  import opened Seqs
  import opened XmlTree

  const MathNs := "http://www.w3.org/1998/Math/MathML"

  /** The arguments that survive `[a for a in args if a]`. */
  function NonEmpty(xs: seq<string>): (r: seq<string>)
    ensures |r| <= |xs|
    ensures forall i :: 0 <= i < |r| ==> r[i] != "" && r[i] in xs
  {
    if |xs| == 0 then []
    else if xs[0] != "" then [xs[0]] + NonEmpty(xs[1..])
    else NonEmpty(xs[1..])
  }

  /** The one-argument functions of the operator table and their emitted
      numeric-library names. */
  const FunctionTable: map<string, string> :=
    map["abs" := "np.abs", "exp" := "np.exp", "ln" := "np.log", "log" := "np.log10",
        "floor" := "np.floor", "ceiling" := "np.ceil",
        "sin" := "np.sin", "cos" := "np.cos", "tan" := "np.tan"]

  /** The n-ary operators: `(a op b op …)` over every surviving argument. */
  const NaryTable: map<string, string> :=
    map["plus" := " + ", "times" := " * ", "and" := " and ", "or" := " or ", "xor" := " != "]

  /** The binary operators rendered `(a op b)`. */
  const InfixTable: map<string, string> :=
    map["divide" := " / ", "lt" := " < ", "gt" := " > ", "leq" := " <= ", "geq" := " >= "]

  /** `(args[0] op args[1])`, raising when fewer than two arguments survive. */
  function Infix(args: seq<string>, op: string): Outcome<string> {
    if |args| < 2 then Raised else Ok("(" + args[0] + op + args[1] + ")")
  }

  /** The operator table of an `apply` whose first child is `op`. The
      tables' keys are pairwise distinct, so the order of the tests is that
      of the source's chain of `if op_tag == …`. */
  function ApplyOp(op: string, args: seq<string>, isRoot: bool): Outcome<string> {
    if op == "eq" then
      if |args| < 2 then Raised
      else Ok(args[0] + (if isRoot then " = " else " == ") + args[1])
    else if op == "minus" then
      if |args| > 1 then Ok("(" + args[0] + " - " + args[1] + ")")
      else if |args| == 1 then Ok("-" + args[0])
      else Raised
    else if op == "not" then
      if |args| < 1 then Raised else Ok("(not " + args[0] + ")")
    else if op == "power" then
      if |args| < 2 then Raised else Ok("np.power(" + args[0] + ", " + args[1] + ")")
    else if op == "root" then
      if |args| < 2 then Raised else Ok("np.sqrt(" + args[1] + ")")
    else if op in NaryTable then Ok("(" + Join(args, NaryTable[op]) + ")")
    else if op in InfixTable then Infix(args, InfixTable[op])
    else if op in FunctionTable then
      if |args| < 1 then Raised else Ok(FunctionTable[op] + "(" + args[0] + ")")
    else Ok(op + "(" + Join(args, ", ") + ")")
  }

  /** The constant elements and the tokens they emit. */
  const ConstantTable: map<string, string> :=
    map["true" := "True", "false" := "False", "pi" := "np.pi",
        "exponentiale" := "np.e", "infinity" := "np.inf"]

  /** The text of a leaf: a trimmed `ci` (or ""), a trimmed `cn` (or "0"),
      a constant's token, or "" for any other tag. */
  function LeafText(name: string, text: Option<string>): string {
    if name == "ci" then (if Truthy(text) then Strip(text.value) else "")
    else if name == "cn" then (if Truthy(text) then Strip(text.value) else "0")
    else if name in ConstantTable then ConstantTable[name]
    else ""
  }

  /** `_linearize_mathml(element, is_root)`. The source tests the leaf tags
      before `apply` and `piecewise`; the tags are distinct, so dispatching
      on the two compound tags first is the same function. */
  function Linearize(e: Xml, isRoot: bool): Outcome<string>
    decreases e, 2
  {
    match e
    case Comment => Ok("")
    case Element(_, name, text, _, _) =>
      if name == "apply" then LinearizeApply(e, isRoot)
      else if name == "piecewise" then LinearizePiecewise(e)
      else Ok(LeafText(name, text))
  }

  /** An `apply`: the first element child names the operator, the others
      are linearized (nested, so never as a root) and the empty ones dropped. */
  function LinearizeApply(e: Xml, isRoot: bool): Outcome<string>
    requires e.Element?
    decreases e, 1
  {
    var ch := Elements(e.children);
    if |ch| == 0 then Ok("")
    else
      match LinearizeArgs(e, ch[1..])
      case Raised => Raised
      case Ok(args) => ApplyOp(ch[0].name, NonEmpty(args), isRoot)
  }

  /** The argument list of an `apply`, each linearized with `is_root=False`;
      the first exception propagates. */
  function LinearizeArgs(e: Xml, xs: seq<Xml>): (r: Outcome<seq<string>>)
    requires e.Element?
    requires forall i :: 0 <= i < |xs| ==> xs[i] in e.children
    ensures r.Ok? ==> |r.value| == |xs|
    decreases e, 0, |xs|
  {
    if |xs| == 0 then Ok([])
    else
      match Linearize(xs[0], false)
      case Raised => Raised
      case Ok(a) =>
        match LinearizeArgs(e, xs[1..])
        case Raised => Raised
        case Ok(rest) => Ok([a] + rest)
  }

  /** A `piecewise`: the (value, condition) pairs of its `piece` children
      with at least two element children, folded right to left onto the
      `otherwise` value. */
  function LinearizePiecewise(e: Xml): Outcome<string>
    requires e.Element?
    decreases e, 1
  {
    match PiecePairs(e, ChildrenNamed(e.children, MathNs, "piece"))
    case Raised => Raised
    case Ok(pairs) =>
      match OtherwiseValue(e)
      case Raised => Raised
      case Ok(d) => Ok(FoldPieces(pairs, d))
  }

  function PiecePairs(e: Xml, ps: seq<Xml>): Outcome<seq<(string, string)>>
    requires e.Element?
    requires forall i :: 0 <= i < |ps| ==> ps[i] in e.children && ps[i].Element?
    decreases e, 0, |ps|
  {
    if |ps| == 0 then Ok([])
    else
      var ch := Elements(ps[0].children);
      var head: Outcome<seq<(string, string)>> :=
        if |ch| < 2 then Ok([])
        else
          match Linearize(ch[0], false)
          case Raised => Raised
          case Ok(v) =>
            match Linearize(ch[1], false)
            case Raised => Raised
            case Ok(c) => Ok([(v, c)]);
      match head
      case Raised => Raised
      case Ok(h) =>
        match PiecePairs(e, ps[1..])
        case Raised => Raised
        case Ok(rest) => Ok(h + rest)
  }

  /** The default of a `piecewise`: its `otherwise` value, or "0.0". */
  function OtherwiseValue(e: Xml): Outcome<string>
    requires e.Element?
    decreases e, 0
  {
    match FirstNamed(e.children, MathNs, "otherwise")
    case None => Ok("0.0")
    case Some(o) =>
      var ch := Elements(o.children);
      if |ch| > 0 then Linearize(ch[0], false) else Ok("0.0")
  }

  /** `(v1 if c1 else (v2 if c2 else … d))`. */
  function FoldPieces(pairs: seq<(string, string)>, d: string): string {
    if |pairs| == 0 then d
    else "(" + pairs[0].0 + " if " + pairs[0].1 + " else " + FoldPieces(pairs[1..], d) + ")"
  }

  // ---------------------------------------------------------------------
  // Equation classification
  // ---------------------------------------------------------------------

  datatype EqKind = Ode | Algebraic

  /** A structured equation `{type, lhs, rhs}`. */
  datatype Equation = Equation(kind: EqKind, lhs: string, rhs: string)

  predicate IsIdentifier(s: string) {
    |s| > 0 && (IsLetter(s[0]) || s[0] == '_')
    && forall i :: 1 <= i < |s| ==> IsLetter(s[i]) || IsDigit(s[i]) || s[i] == '_'
  }

  /** `re.match(r'^[a-zA-Z_][a-zA-Z0-9_]*$', s)`: Python's `$` also matches
      just before a final newline. */
  predicate MatchesIdentifierPattern(s: string) {
    IsIdentifier(s) || (|s| > 0 && s[|s| - 1] == '\n' && IsIdentifier(s[..|s| - 1]))
  }

  /** `len(lhs) > 0 and lhs.tag.endswith('apply')` (a comment has no children). */
  predicate IsApplyShaped(x: Xml) {
    x.Element? && |x.children| > 0 && IsSuffix("apply", x.name)
  }

  /** One top-level `apply` of a `math` block: `Ok(Some(eq))` when kept,
      `Ok(None)` when silently dropped, `Raised` when the source's
      per-equation `except` swallows an exception. */
  function Classify(child: Xml): Outcome<Option<Equation>>
    requires child.Element?
  {
    var cs := child.children;
    if |cs| == 0 then Raised
    else
      match LocalTag(cs[0])
      case Raised => Raised
      case Ok(op) =>
        if op != "eq" then Ok(None)
        else if |cs| > 1 && IsApplyShaped(cs[1]) then
          match LocalTag(cs[1].children[0])
          case Raised => Raised
          case Ok(lop) =>
            if lop == "diff" && |cs[1].children| >= 3 then ClassifyOde(cs)
            else ClassifyAlgebraic(cs)
        else ClassifyAlgebraic(cs)
  }

  /** `eq(diff(bvar, x), rhs)`: the target and the right side must both be non-empty. */
  function ClassifyOde(cs: seq<Xml>): Outcome<Option<Equation>>
    requires |cs| > 1 && cs[1].Element? && |cs[1].children| >= 3
  {
    match Linearize(cs[1].children[2], false)
    case Raised => Raised
    case Ok(target) =>
      if |cs| < 3 then Raised
      else
        match Linearize(cs[2], true)
        case Raised => Raised
        case Ok(rhs) => Ok(if target != "" && rhs != "" then Some(Equation(Ode, target, rhs)) else None)
  }

  /** Any other `eq`: kept only with a non-empty right side and an
      identifier-shaped left side. */
  function ClassifyAlgebraic(cs: seq<Xml>): Outcome<Option<Equation>> {
    if |cs| < 2 then Raised
    else
      match Linearize(cs[1], false)
      case Raised => Raised
      case Ok(lhs) =>
        if |cs| < 3 then Raised
        else
          match Linearize(cs[2], true)
          case Raised => Raised
          case Ok(rhs) =>
            Ok(if lhs != "" && rhs != "" && MatchesIdentifierPattern(lhs)
               then Some(Equation(Algebraic, lhs, rhs)) else None)
  }

  /** What one child of a `math` element contributes: non-`apply` children
      and comments contribute nothing, and neither does a dropped or
      failing equation. */
  function Contribution(x: Xml): seq<Equation> {
    if x.Element? && IsSuffix("apply", x.name) then
      match Classify(x)
      case Ok(Some(eq)) => [eq]
      case _ => []
    else []
  }

  /** `_extract_structured_equations` over the children of a `math` element. */
  function ExtractFrom(xs: seq<Xml>): seq<Equation> {
    FlatMap(Contribution, xs)
  }
}
