/** Properties of the MathML linearizer and the equation classifier. */
module MathMLLemmas {
  import opened Wrappers
  import opened Strings
  import opened XmlTree
  import opened MathML
  import opened Seqs

  // ---------------------------------------------------------------------
  // Small tree builders used by the worked examples
  // ---------------------------------------------------------------------

  function Leaf(name: string, text: string): Xml {
    Element(MathNs, name, Some(text), [], [])
  }

  function Ci(s: string): Xml { Leaf("ci", s) }

  function Cn(s: string): Xml { Leaf("cn", s) }

  function Op(name: string): Xml { Element(MathNs, name, None, [], []) }

  function Apply(op: string, args: seq<Xml>): Xml {
    Element(MathNs, "apply", None, [], [Op(op)] + args)
  }

  // ---------------------------------------------------------------------
  // Sequence plumbing
  // ---------------------------------------------------------------------

  lemma {:induction false} ElementsAppend(xs: seq<Xml>, ys: seq<Xml>)
    ensures Elements(xs + ys) == Elements(xs) + Elements(ys)
    decreases |xs|
  {
    if |xs| > 0 {
      assert (xs + ys)[1..] == xs[1..] + ys;
      ElementsAppend(xs[1..], ys);
    } else {
      assert xs + ys == ys;
    }
  }

  lemma {:induction false} NonEmptyAppend(xs: seq<string>, ys: seq<string>)
    ensures NonEmpty(xs + ys) == NonEmpty(xs) + NonEmpty(ys)
    decreases |xs|
  {
    if |xs| > 0 {
      assert (xs + ys)[1..] == xs[1..] + ys;
      NonEmptyAppend(xs[1..], ys);
    } else {
      assert xs + ys == ys;
    }
  }

  /** An argument of an `apply` is linearized nested, never as a root. */
  function Nested(x: Xml): Outcome<string> {
    Linearize(x, false)
  }

  /** The argument list's value does not depend on the parent used to
      justify termination: it is the plain map over the arguments. */
  lemma {:induction false} ArgsAsList(e: Xml, xs: seq<Xml>)
    requires e.Element? && forall i :: 0 <= i < |xs| ==> xs[i] in e.children
    ensures LinearizeArgs(e, xs) == MapAll(Nested, xs)
    decreases |xs|
  {
    if |xs| > 0 {
      ArgsAsList(e, xs[1..]);
    }
  }

  lemma {:induction false} AllElements(xs: seq<Xml>)
    requires forall i :: 0 <= i < |xs| ==> xs[i].Element?
    ensures Elements(xs) == xs
    decreases |xs|
  {
    if |xs| > 0 {
      AllElements(xs[1..]);
      assert xs == [xs[0]] + xs[1..];
    }
  }

  lemma {:induction false} NoElements(xs: seq<Xml>)
    requires forall i :: 0 <= i < |xs| ==> xs[i].Comment?
    ensures Elements(xs) == []
    decreases |xs|
  {
    if |xs| > 0 {
      NoElements(xs[1..]);
    }
  }

  /** What an `apply` renders, given its linearized arguments. */
  function ApplyValue(op: string, vs: Outcome<seq<string>>, isRoot: bool): Outcome<string> {
    if vs.Raised? then Raised else ApplyOp(op, NonEmpty(vs.value), isRoot)
  }

  /** An `apply` element in terms of its element children. */
  lemma ApplyUnfold(e: Xml, isRoot: bool)
    requires e.Element? && e.name == "apply"
    ensures var ch := Elements(e.children);
      Linearize(e, isRoot)
        == if |ch| == 0 then Ok("") else ApplyValue(ch[0].name, MapAll(Nested, ch[1..]), isRoot)
  {
    var ch := Elements(e.children);
    if |ch| > 0 {
      ArgsAsList(e, ch[1..]);
    }
  }

  /** An `apply` built from an operator and element arguments. */
  lemma LinearizeApplyOf(op: string, args: seq<Xml>, isRoot: bool)
    requires forall i :: 0 <= i < |args| ==> args[i].Element?
    ensures Linearize(Apply(op, args), isRoot) == ApplyValue(op, MapAll(Nested, args), isRoot)
  {
    var e := Apply(op, args);
    AllElements(e.children);
    assert e.children[1..] == args;
    ApplyUnfold(e, isRoot);
  }

  // ---------------------------------------------------------------------
  // Leaves
  // ---------------------------------------------------------------------

  /** A `ci` gives its text without surrounding whitespace, or "" when it
      has none; a `cn` gives its trimmed text, or "0" when it has none. */
  lemma TokenLeaves(ns: string, text: Option<string>, attrs: seq<(string, string)>, cs: seq<Xml>, isRoot: bool)
    ensures Linearize(Element(ns, "ci", text, attrs, cs), isRoot)
            == Ok(if text.None? || text.value == "" then "" else Strip(text.value))
    ensures Linearize(Element(ns, "cn", text, attrs, cs), isRoot)
            == Ok(if text.None? || text.value == "" then "0" else Strip(text.value))
  {
  }

  /** A trimmed token neither starts nor ends with whitespace. */
  lemma StripHasNoOuterSpace(s: string)
    ensures var t := Strip(s); |t| == 0 || (!IsSpace(t[0]) && !IsSpace(t[|t| - 1]))
  {
    var l := TrimLeft(s);
    var t := TrimRight(l);
    if |t| > 0 {
      assert t[0] == l[0];
    }
  }

  /** Text without outer whitespace is its own trimmed form. */
  lemma StripOfTrimmed(s: string)
    requires |s| > 0 ==> !IsSpace(s[0]) && !IsSpace(s[|s| - 1])
    ensures Strip(s) == s
  {
  }

  /** A `ci` (or `cn`) whose text has no outer whitespace renders as that text. */
  lemma TokenOf(name: string, s: string)
    requires name == "ci" || name == "cn"
    requires |s| > 0 && !IsSpace(s[0]) && !IsSpace(s[|s| - 1])
    ensures Linearize(Leaf(name, s), false) == Ok(s)
  {
    StripOfTrimmed(s);
  }

  /** The constant elements give fixed tokens whatever their text, namespace
      or children. */
  lemma ConstantLeaves(ns: string, text: Option<string>, attrs: seq<(string, string)>, cs: seq<Xml>, isRoot: bool)
    ensures Linearize(Element(ns, "true", text, attrs, cs), isRoot) == Ok("True")
    ensures Linearize(Element(ns, "false", text, attrs, cs), isRoot) == Ok("False")
    ensures Linearize(Element(ns, "pi", text, attrs, cs), isRoot) == Ok("np.pi")
    ensures Linearize(Element(ns, "exponentiale", text, attrs, cs), isRoot) == Ok("np.e")
    ensures Linearize(Element(ns, "infinity", text, attrs, cs), isRoot) == Ok("np.inf")
  {
  }

  const RecognisedTags: set<string> :=
    {"ci", "cn", "true", "false", "pi", "exponentiale", "infinity", "apply", "piecewise"}

  /** An unrecognised tag, and a comment, give "" and never raise, whatever
      they contain. */
  lemma UnknownTagIsEmpty(x: Xml, isRoot: bool)
    requires x.Comment? || x.name !in RecognisedTags
    ensures Linearize(x, isRoot) == Ok("")
  {
  }

  // ---------------------------------------------------------------------
  // apply
  // ---------------------------------------------------------------------

  /** How many surviving arguments an operator reads: fewer raise. */
  function Arity(op: string): nat {
    if op == "eq" || op == "power" || op == "root" || op in InfixTable then 2
    else if op == "minus" || op == "not" || op in FunctionTable then 1
    else 0
  }

  /** The operator table raises exactly when it indexes past the surviving
      arguments. */
  lemma ApplyOpRaisesIffShort(op: string, args: seq<string>, isRoot: bool)
    ensures ApplyOp(op, args, isRoot).Raised? <==> |args| < Arity(op)
  {
  }

  /** An operator outside the table never raises and renders as a call
      `op(a, b, …)`. */
  lemma UnknownOperatorIsCall(op: string, args: seq<string>, isRoot: bool)
    requires op !in {"eq", "minus", "not", "power", "root"}
    requires op !in NaryTable && op !in InfixTable && op !in FunctionTable
    ensures ApplyOp(op, args, isRoot) == Ok(op + "(" + Join(args, ", ") + ")")
  {
  }

  /** An `apply` without element children gives "". */
  lemma ApplyWithoutElements(ns: string, t: Option<string>, a: seq<(string, string)>, cs: seq<Xml>, isRoot: bool)
    requires forall i :: 0 <= i < |cs| ==> cs[i].Comment?
    ensures Linearize(Element(ns, "apply", t, a, cs), isRoot) == Ok("")
  {
    NoElements(cs);
  }

  /** Two `apply` elements with the same element children render alike:
      comments, text and attributes play no part. */
  lemma ApplyDependsOnlyOnElements(e1: Xml, e2: Xml, isRoot: bool)
    requires e1.Element? && e1.name == "apply" && e2.Element? && e2.name == "apply"
    requires Elements(e1.children) == Elements(e2.children)
    ensures Linearize(e1, isRoot) == Linearize(e2, isRoot)
  {
    ApplyUnfold(e1, isRoot);
    ApplyUnfold(e2, isRoot);
  }

  /** A comment anywhere among the children is not an element child. */
  lemma CommentIsSkipped(xs: seq<Xml>, ys: seq<Xml>)
    ensures Elements(xs + [Comment] + ys) == Elements(xs + ys)
  {
    ElementsAppend(xs + [Comment], ys);
    ElementsAppend(xs, [Comment]);
    ElementsAppend(xs, ys);
    assert Elements([Comment]) == [];
  }

  /** Dropping "" from a list of arguments is the same before and after
      inserting one more "". */
  lemma NonEmptyInsert(a: seq<string>, b: seq<string>)
    ensures NonEmpty(a + [""] + b) == NonEmpty(a + b)
  {
    var empty: seq<string> := [""];
    NonEmptyAppend(a + empty, b);
    NonEmptyAppend(a, empty);
    NonEmptyAppend(a, b);
    assert NonEmpty(empty) == [];
  }

  /** An argument that linearizes to "" is filtered out, not passed on as a
      blank: an `apply` renders as if that element child were absent. */
  lemma EmptyArgumentIsDropped(e1: Xml, e2: Xml, pre: seq<Xml>, c: Xml, post: seq<Xml>, isRoot: bool)
    requires e1.Element? && e1.name == "apply" && e2.Element? && e2.name == "apply"
    requires |pre| > 0
    requires Elements(e1.children) == pre + [c] + post
    requires Elements(e2.children) == pre + post
    requires Linearize(c, false) == Ok("")
    ensures Linearize(e1, isRoot) == Linearize(e2, isRoot)
  {
    assert (pre + [c] + post)[0] == pre[0] && (pre + post)[0] == pre[0];
    assert (pre + [c] + post)[1..] == pre[1..] + [c] + post;
    assert (pre + post)[1..] == pre[1..] + post;
    ApplyUnfold(e1, isRoot);
    ApplyUnfold(e2, isRoot);
    EmptyValueIsDropped(pre[0].name, pre[1..], c, post, isRoot);
  }

  lemma EmptyValueIsDropped(op: string, xs: seq<Xml>, c: Xml, ys: seq<Xml>, isRoot: bool)
    requires Nested(c) == Ok("")
    ensures ApplyValue(op, MapAll(Nested, xs + [c] + ys), isRoot) == ApplyValue(op, MapAll(Nested, xs + ys), isRoot)
  {
    MapAllInsert(Nested, xs, c, ys);
    var r := MapAll(Nested, xs + ys);
    if r.Ok? {
      var k := |xs|;
      NonEmptyInsert(r.value[..k], r.value[k..]);
      assert r.value[..k] + r.value[k..] == r.value;
    }
  }

  /** `is_root` only changes how an `eq` renders: "=" at the root, "=="
      when nested. */
  lemma RootFlagOnlyAffectsEq(x: Xml)
    requires !(x.Element? && x.name == "apply" && |Elements(x.children)| > 0 && Elements(x.children)[0].name == "eq")
    ensures Linearize(x, true) == Linearize(x, false)
  {
    if x.Element? && x.name == "apply" {
      ApplyUnfold(x, true);
      ApplyUnfold(x, false);
    }
  }

  /** Two non-empty arguments both survive the filter, in order. */
  lemma TwoArguments(l: Xml, r: Xml, lv: string, rv: string)
    requires Nested(l) == Ok(lv) && lv != ""
    requires Nested(r) == Ok(rv) && rv != ""
    ensures MapAll(Nested, [l, r]) == Ok([lv, rv])
    ensures NonEmpty([lv, rv]) == [lv, rv]
  {
    MapAllTwo(Nested, l, r);
    assert [lv, rv][1..] == [rv];
    assert [rv][1..] == [];
  }

  /** Two non-empty sides of an `eq` render as an assignment at the root and
      as a comparison when nested. */
  lemma EqRendering(l: Xml, r: Xml, lv: string, rv: string)
    requires l.Element? && r.Element?
    requires Linearize(l, false) == Ok(lv) && lv != ""
    requires Linearize(r, false) == Ok(rv) && rv != ""
    ensures Linearize(Apply("eq", [l, r]), true) == Ok(lv + " = " + rv)
    ensures Linearize(Apply("eq", [l, r]), false) == Ok(lv + " == " + rv)
  {
    LinearizeApplyOf("eq", [l, r], true);
    LinearizeApplyOf("eq", [l, r], false);
    TwoArguments(l, r, lv, rv);
    assert ApplyOp("eq", [lv, rv], true) == Ok(lv + " = " + rv);
    assert ApplyOp("eq", [lv, rv], false) == Ok(lv + " == " + rv);
  }

  lemma NaryOp(op: string, lv: string, rv: string, isRoot: bool)
    requires op in NaryTable
    ensures ApplyOp(op, [lv, rv], isRoot) == Ok("(" + lv + NaryTable[op] + rv + ")")
  {
    assert op != "eq" && op != "minus" && op != "not" && op != "power" && op != "root";
    assert [lv, rv][1..] == [rv];
    var sep := NaryTable[op];
    assert Join([lv, rv], sep) == lv + sep + rv;
    assert "(" + (lv + sep + rv) + ")" == "(" + lv + sep + rv + ")";
  }

  lemma InfixOp(op: string, lv: string, rv: string, isRoot: bool)
    requires op in InfixTable
    ensures ApplyOp(op, [lv, rv], isRoot) == Ok("(" + lv + InfixTable[op] + rv + ")")
  {
    assert op != "eq" && op != "minus" && op != "not" && op != "power" && op != "root";
    assert op !in NaryTable;
  }

  /** Two non-empty arguments of an n-ary operator render in parentheses
      around the operator's symbol. */
  lemma NaryRendering(op: string, l: Xml, r: Xml, lv: string, rv: string, isRoot: bool)
    requires op in NaryTable
    requires l.Element? && r.Element?
    requires Linearize(l, false) == Ok(lv) && lv != ""
    requires Linearize(r, false) == Ok(rv) && rv != ""
    ensures Linearize(Apply(op, [l, r]), isRoot) == Ok("(" + lv + NaryTable[op] + rv + ")")
  {
    LinearizeApplyOf(op, [l, r], isRoot);
    TwoArguments(l, r, lv, rv);
    NaryOp(op, lv, rv, isRoot);
  }

  /** Two non-empty arguments of a binary operator render in parentheses
      around the operator's symbol. */
  lemma InfixRendering(op: string, l: Xml, r: Xml, lv: string, rv: string, isRoot: bool)
    requires op in InfixTable
    requires l.Element? && r.Element?
    requires Linearize(l, false) == Ok(lv) && lv != ""
    requires Linearize(r, false) == Ok(rv) && rv != ""
    ensures Linearize(Apply(op, [l, r]), isRoot) == Ok("(" + lv + InfixTable[op] + rv + ")")
  {
    LinearizeApplyOf(op, [l, r], isRoot);
    TwoArguments(l, r, lv, rv);
    InfixOp(op, lv, rv, isRoot);
  }

  /** The worked example `plus(a, b)` gives "(a + b)". */
  lemma PlusExample()
    ensures Linearize(Apply("plus", [Ci("a"), Ci("b")]), false) == Ok("(a + b)")
  {
    TokenOf("ci", "a");
    TokenOf("ci", "b");
    assert "plus" in NaryTable && NaryTable["plus"] == " + ";
    NaryRendering("plus", Ci("a"), Ci("b"), "a", "b", false);
    assert "(" + "a" + " + " + "b" + ")" == "(a + b)";
  }

  /** The worked example `divide(a, b)` gives "(a / b)". */
  lemma DivideExample()
    ensures Linearize(Apply("divide", [Ci("a"), Ci("b")]), false) == Ok("(a / b)")
  {
    TokenOf("ci", "a");
    TokenOf("ci", "b");
    assert "divide" in InfixTable && InfixTable["divide"] == " / ";
    InfixRendering("divide", Ci("a"), Ci("b"), "a", "b", false);
    assert "(" + "a" + " / " + "b" + ")" == "(a / b)";
  }

  /** A `minus` with one surviving argument is unary negation. */
  lemma UnaryMinus(x: Xml, v: string)
    requires x.Element? && Linearize(x, false) == Ok(v) && v != ""
    ensures Linearize(Apply("minus", [x]), false) == Ok("-" + v)
  {
    LinearizeApplyOf("minus", [x], false);
    MapAllOne(Nested, x);
    assert NonEmpty([v]) == [v] by { assert [v][1..] == []; }
  }

  // ---------------------------------------------------------------------
  // piecewise
  // ---------------------------------------------------------------------

  /** The source's loop: walk the pairs from last to first, wrapping the
      running result each time. */
  function LoopFold(pairs: seq<(string, string)>, res: string): string
    decreases |pairs|
  {
    if |pairs| == 0 then res
    else
      var p := pairs[|pairs| - 1];
      LoopFold(pairs[..|pairs| - 1], "(" + p.0 + " if " + p.1 + " else " + res + ")")
  }

  /** Folding right to left is the same as nesting left to right: the first
      piece is outermost, so its condition has priority. */
  lemma {:induction false} FoldPiecesIsLoop(pairs: seq<(string, string)>, d: string)
    ensures FoldPieces(pairs, d) == LoopFold(pairs, d)
    decreases |pairs|
  {
    if |pairs| > 0 {
      var last := pairs[|pairs| - 1];
      var w := "(" + last.0 + " if " + last.1 + " else " + d + ")";
      FoldPiecesSnoc(pairs[..|pairs| - 1], last, d);
      assert pairs[..|pairs| - 1] + [last] == pairs;
      FoldPiecesIsLoop(pairs[..|pairs| - 1], w);
    }
  }

  lemma {:induction false} FoldPiecesSnoc(pairs: seq<(string, string)>, p: (string, string), d: string)
    ensures FoldPieces(pairs + [p], d) == FoldPieces(pairs, "(" + p.0 + " if " + p.1 + " else " + d + ")")
    decreases |pairs|
  {
    if |pairs| == 0 {
      assert pairs + [p] == [p];
    } else {
      assert (pairs + [p])[1..] == pairs[1..] + [p];
      FoldPiecesSnoc(pairs[1..], p, d);
    }
  }

  /** One `piece` with at least two element children contributes the pair
      of their linearizations. */
  lemma OnePiece(e: Xml, piece: Xml, v: string, c: string)
    requires e.Element? && piece in e.children && piece.Element?
    requires |Elements(piece.children)| >= 2
    requires Linearize(Elements(piece.children)[0], false) == Ok(v)
    requires Linearize(Elements(piece.children)[1], false) == Ok(c)
    ensures PiecePairs(e, [piece]) == Ok([(v, c)])
  {
    assert [piece][0] == piece;
    assert [piece][1..] == [];
    assert PiecePairs(e, []) == Ok([]);
    assert [(v, c)] + [] == [(v, c)];
  }

  /** Without an `otherwise`, the default is the literal "0.0". */
  lemma PiecewiseDefault(ns: string, t: Option<string>, a: seq<(string, string)>)
    ensures Linearize(Element(ns, "piecewise", t, a, []), false) == Ok("0.0")
  {
    var e := Element(ns, "piecewise", t, a, []);
    assert PiecePairs(e, []) == Ok([]);
    assert OtherwiseValue(e) == Ok("0.0");
    assert LinearizePiecewise(e) == Ok("0.0");
  }

  // ---------------------------------------------------------------------
  // Equation classification
  // ---------------------------------------------------------------------

  /** Equations are appended in document order: what a list of children
      yields is what its parts yield, concatenated. */
  lemma ExtractAppend(xs: seq<Xml>, ys: seq<Xml>)
    ensures ExtractFrom(xs + ys) == ExtractFrom(xs) + ExtractFrom(ys)
  {
    FlatMapAppend(Contribution, xs, ys);
  }

  /** One failing equation skips only itself: its neighbours are extracted
      exactly as without it. */
  lemma FailingEquationIsSkipped(xs: seq<Xml>, bad: Xml, ys: seq<Xml>)
    requires bad.Element? && Classify(bad).Raised?
    ensures ExtractFrom(xs + [bad] + ys) == ExtractFrom(xs) + ExtractFrom(ys)
  {
    assert Contribution(bad) == [];
    assert FlatMap(Contribution, [bad]) == [] by {
      assert [bad][1..] == [];
    }
    FlatMapAppend(Contribution, xs + [bad], ys);
    FlatMapAppend(Contribution, xs, [bad]);
  }

  predicate WellFormed(eq: Equation) {
    eq.lhs != "" && eq.rhs != "" && (eq.kind == Algebraic ==> MatchesIdentifierPattern(eq.lhs))
  }

  lemma ClassifyWellFormed(x: Xml)
    requires x.Element?
    ensures Classify(x).Ok? && Classify(x).value.Some? ==> WellFormed(Classify(x).value.value)
  {
  }

  /** Every extracted equation has non-empty sides, and an algebraic one
      has an identifier-shaped left side. */
  lemma ExtractedEquationsWellFormed(xs: seq<Xml>)
    ensures forall i :: 0 <= i < |ExtractFrom(xs)| ==> WellFormed(ExtractFrom(xs)[i])
  {
    forall k, i | 0 <= k < |xs| && 0 <= i < |Contribution(xs[k])|
      ensures WellFormed(Contribution(xs[k])[i])
    {
      ClassifyWellFormed(xs[k]);
    }
    FlatMapAll(Contribution, xs, WellFormed);
  }

  /** `eq(diff(bvar, x), rhs)` with non-empty sides is an ODE on `x`. */
  lemma OdeShape(bvar: Xml, target: Xml, rhs: Xml, tx: string, rx: string)
    requires Linearize(target, false) == Ok(tx) && tx != ""
    requires Linearize(rhs, true) == Ok(rx) && rx != ""
    ensures Classify(Apply("eq", [Apply("diff", [bvar, target]), rhs])) == Ok(Some(Equation(Ode, tx, rx)))
  {
    var d := Apply("diff", [bvar, target]);
    var e := Apply("eq", [d, rhs]);
    assert e.children == [Op("eq"), d, rhs];
    assert d.children == [Op("diff"), bvar, target];
    assert IsSuffix("apply", "apply");
    assert IsApplyShaped(d);
    assert Classify(e) == ClassifyOde(e.children);
  }

  /** A diff-shaped left side with at least three children is never
      reclassified as algebraic: an empty side drops the equation. */
  lemma DiffIsNeverAlgebraic(child: Xml)
    requires child.Element? && |child.children| > 1
    requires IsApplyShaped(child.children[1]) && |child.children[1].children| >= 3
    requires child.children[1].children[0].Element? && child.children[1].children[0].name == "diff"
    ensures Classify(child).Ok? && Classify(child).value.Some? ==> Classify(child).value.value.kind == Ode
  {
  }

  /** The worked example: `d x / d t = rhs` gives `{ode, "x", "rhs"}`. */
  lemma OdeExample()
    ensures Classify(Apply("eq", [Apply("diff", [Element(MathNs, "bvar", None, [], [Ci("t")]), Ci("x")]), Ci("rhs")]))
         == Ok(Some(Equation(Ode, "x", "rhs")))
  {
    TokenOf("ci", "x");
    TokenOf("ci", "rhs");
    RootFlagOnlyAffectsEq(Ci("rhs"));
    OdeShape(Element(MathNs, "bvar", None, [], [Ci("t")]), Ci("x"), Ci("rhs"), "x", "rhs");
  }
}
