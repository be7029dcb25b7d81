/** Parsed XML as the pipeline sees it through lxml: elements with a
    namespace, a local name, optional text, attributes and children, and
    the non-element nodes (comments, processing instructions) that sit
    among the children. */
module XmlTree {
  import opened Wrappers
  import opened Strings

  /** A parsed XML node. `Comment` stands for every child whose lxml tag
      is not a string (comments, processing instructions): it has no
      children and no local name. `name` is the local tag name; the
      qualified tag is `{ns}name`. */
  datatype Xml =
    | Element(ns: string, name: string, text: Option<string>, attrs: seq<(string, string)>, children: seq<Xml>)
    | Comment

  /** `e.get(key)`. */
  function Attr(e: Xml, key: string): Option<string> {
    if e.Comment? then None else AttrIn(e.attrs, key)
  }

  function AttrIn(attrs: seq<(string, string)>, key: string): (r: Option<string>)
    ensures r.Some? ==> (key, r.value) in attrs
  {
    if |attrs| == 0 then None
    else if attrs[0].0 == key then Some(attrs[0].1)
    else AttrIn(attrs[1..], key)
  }

  /** The element children, in order (`[c for c in e if isinstance(c.tag, str)]`). */
  function Elements(xs: seq<Xml>): (r: seq<Xml>)
    ensures |r| <= |xs|
    ensures forall i :: 0 <= i < |r| ==> r[i] in xs && r[i].Element?
  {
    if |xs| == 0 then []
    else if xs[0].Element? then [xs[0]] + Elements(xs[1..])
    else Elements(xs[1..])
  }

  predicate Named(x: Xml, ns: string, local: string) {
    x.Element? && x.ns == ns && x.name == local
  }

  /** `e.findall('{ns}local')`: the direct children with that qualified tag. */
  function ChildrenNamed(xs: seq<Xml>, ns: string, local: string): (r: seq<Xml>)
    ensures forall i :: 0 <= i < |r| ==> r[i] in xs && Named(r[i], ns, local)
  {
    if |xs| == 0 then []
    else if Named(xs[0], ns, local) then [xs[0]] + ChildrenNamed(xs[1..], ns, local)
    else ChildrenNamed(xs[1..], ns, local)
  }

  /** `e.find('{ns}local')`: the first direct child with that qualified tag. */
  function FirstNamed(xs: seq<Xml>, ns: string, local: string): (r: Option<Xml>)
    ensures r.Some? ==> r.value in xs && Named(r.value, ns, local)
  {
    if |xs| == 0 then None
    else if Named(xs[0], ns, local) then Some(xs[0])
    else FirstNamed(xs[1..], ns, local)
  }

  /** `x.tag.split('}')[-1]`, which raises on a comment node. */
  function LocalTag(x: Xml): Outcome<string> {
    if x.Element? then Ok(x.name) else Raised
  }

  /** The qualified tag `{ns}name` as lxml reports it (no braces without
      a namespace). */
  function QualifiedTag(x: Xml): string
    requires x.Element?
  {
    if x.ns == "" then x.name else "{" + x.ns + "}" + x.name
  }

  /** `x` followed by all its descendants, in document order. */
  function Subtree(x: Xml): (r: seq<Xml>)
    ensures |r| > 0 && r[0] == x
    decreases x, 1
  {
    [x] + (if x.Element? then Forest(x, x.children) else [])
  }

  /** The subtrees of `xs`, children of `parent`, concatenated. */
  function Forest(parent: Xml, xs: seq<Xml>): seq<Xml>
    requires parent.Element?
    requires forall i :: 0 <= i < |xs| ==> xs[i] in parent.children
    decreases parent, 0, |xs|
  {
    if |xs| == 0 then [] else Subtree(xs[0]) + Forest(parent, xs[1..])
  }

  /** The descendants of `x` (not `x` itself), in document order. */
  function Descendants(x: Xml): seq<Xml> {
    if x.Element? then Forest(x, x.children) else []
  }

  /** `x.findall('.//{ns}local')`: every descendant with that qualified tag,
      in document order. */
  function FindAll(x: Xml, ns: string, local: string): (r: seq<Xml>)
    ensures forall i :: 0 <= i < |r| ==> Named(r[i], ns, local)
  {
    Filter(Descendants(x), ns, local)
  }

  function Filter(xs: seq<Xml>, ns: string, local: string): (r: seq<Xml>)
    ensures |r| <= |xs|
    ensures forall i :: 0 <= i < |r| ==> Named(r[i], ns, local) && r[i] in xs
    ensures forall i :: 0 <= i < |xs| && Named(xs[i], ns, local) ==> xs[i] in r
  {
    if |xs| == 0 then []
    else if Named(xs[0], ns, local) then [xs[0]] + Filter(xs[1..], ns, local)
    else Filter(xs[1..], ns, local)
  }
}
