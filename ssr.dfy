/**
  The minimal server-side renderer used by transpiled page code: `h` builds a
  virtual node, `renderToString` serialises a node tree to HTML.

  JavaScript values that can reach the renderer are the constructors of
  `Node`.  Components cannot live inside the datatype (a function from
  props to nodes would make the type contain its own function space), so a
  component vnode names its component and the caller supplies the
  behaviour of every component as the `comps` parameter.  `fuel` is the
  depth of component calls the engine's stack allows: when it runs out the
  innermost frame's `try` catches the overflow and that subtree renders as
  the empty string, exactly as a thrown exception does.
*/
module Ssr {
  import opened GoStrings

  datatype NodeType =
    | Tag(name: string)        // an element tag name
    | Component(name: string)  // a function component
    | FragmentMarker           // the Fragment symbol
    | Missing                  // an absent or falsy `type`

  datatype Node =
    | Undefined
    | Null
    | Bool(b: bool)
    | Num(n: int)
    | Str(s: string)
    | Arr(items: seq<Node>)
    | VNode(kind: NodeType, props: seq<(string, Node)>, children: seq<Node>)
    | Other(text: string)      // any other value; `text` is what String() gives for it

  type Props = seq<(string, Node)>

  datatype Outcome = Returns(node: Node) | Throws

  /** The behaviour of every component, by name */
  type Components = (string, Props) -> Outcome

  /** `h(type, props, ...children)`: a missing props object becomes `{}` */
  function H(kind: NodeType, props: Option<Props>, children: seq<Node>): (r: Node)
    ensures r.VNode? && r.kind == kind && r.children == children
    ensures r.props == if props.Some? then props.value else []
  {
    VNode(kind, if props.Some? then props.value else [], children)
  }

  // ---------------------------------------------------------------------
  // String conversion

  /** JavaScript's String(v) */
  function JsString(v: Node): string
    decreases v, 1
  {
    match v
    case Undefined => "undefined"
    case Null => "null"
    case Bool(b) => if b then "true" else "false"
    case Num(n) => Itoa(n)
    case Str(s) => s
    case Arr(items) => JoinElements(items)
    case VNode(_, _, _) => "[object Object]"
    case Other(text) => text
  }

  /** Array.prototype.join(","), where null and undefined elements are empty */
  function JoinElements(items: seq<Node>): string
    decreases items, 0
  {
    if items == [] then ""
    else
      var first := if items[0].Null? || items[0].Undefined? then "" else JsString(items[0]);
      if |items| == 1 then first else first + "," + JoinElements(items[1..])
  }

  // ---------------------------------------------------------------------
  // Escaping

  predicate IsSpecial(c: char) { c == '&' || c == '<' || c == '>' || c == '"' }

  function Entity(c: char): string
    requires IsSpecial(c)
  {
    match c
    case '&' => "&amp;"
    case '<' => "&lt;"
    case '>' => "&gt;"
    case '"' => "&quot;"
  }

  /** Length of the run of special characters that starts s */
  function RunLength(s: string): (k: nat)
    ensures k <= |s|
    ensures forall i :: 0 <= i < k ==> IsSpecial(s[i])
    ensures k < |s| ==> !IsSpecial(s[k])
  {
    if s == [] || !IsSpecial(s[0]) then 0 else 1 + RunLength(s[1..])
  }

  /**
    escapeHtml as written: the pattern matches a whole run of special
    characters and hands it to the callback, whose `switch` recognises only
    a single character, so a run of two or more is returned unchanged.
  */
  function EscapeHtml(s: string): string
    decreases |s|
  {
    if s == [] then []
    else if !IsSpecial(s[0]) then [s[0]] + EscapeHtml(s[1..])
    else
      var k := RunLength(s);
      (if k == 1 then Entity(s[0]) else s[..k]) + EscapeHtml(s[k..])
  }

  /** The escaping the callback's cases describe: every special character becomes its entity */
  function EscapeAttr(s: string): (r: string)
    ensures forall i :: 0 <= i < |r| ==> r[i] != '<' && r[i] != '>' && r[i] != '"'
  {
    if s == [] then []
    else (if IsSpecial(s[0]) then Entity(s[0]) else [s[0]]) + EscapeAttr(s[1..])
  }

  /** Decodes the four entities, left to right */
  function UnescapeHtml(s: string): string
    decreases |s|
  {
    if s == [] then []
    else if "&amp;" <= s then "&" + UnescapeHtml(s[5..])
    else if "&lt;" <= s then "<" + UnescapeHtml(s[4..])
    else if "&gt;" <= s then ">" + UnescapeHtml(s[4..])
    else if "&quot;" <= s then "\"" + UnescapeHtml(s[6..])
    else [s[0]] + UnescapeHtml(s[1..])
  }

  lemma {:induction false} UnescapeEntity(c: char, rest: string)
    requires IsSpecial(c)
    ensures UnescapeHtml(Entity(c) + rest) == [c] + UnescapeHtml(rest)
  {
    var e := Entity(c);
    var t := e + rest;
    assert t[|e|..] == rest;
    assert e <= t;
    if c == '&' {
      assert "&amp;" <= t;
    } else if c == '<' {
      assert !("&amp;" <= t) by { assert t[1] == 'l'; }
    } else if c == '>' {
      assert !("&amp;" <= t) by { assert t[1] == 'g'; }
      assert !("&lt;" <= t) by { assert t[1] == 'g'; }
    } else {
      assert !("&amp;" <= t) by { assert t[1] == 'q'; }
      assert !("&lt;" <= t) by { assert t[1] == 'q'; }
      assert !("&gt;" <= t) by { assert t[1] == 'q'; }
    }
  }

  lemma {:induction false} UnescapePlain(c: char, rest: string)
    requires c != '&'
    ensures UnescapeHtml([c] + rest) == [c] + UnescapeHtml(rest)
  {
    var t := [c] + rest;
    assert t[1..] == rest;
    assert t[0] == c;
    assert !("&amp;" <= t) && !("&lt;" <= t) && !("&gt;" <= t) && !("&quot;" <= t);
  }

  /** Decoding undoes the corrected escaping, for every string */
  lemma {:induction false} UnescapeEscapeAttr(s: string)
    ensures UnescapeHtml(EscapeAttr(s)) == s
  {
    if s != [] {
      UnescapeEscapeAttr(s[1..]);
      if IsSpecial(s[0]) {
        UnescapeEntity(s[0], EscapeAttr(s[1..]));
      } else {
        UnescapePlain(s[0], EscapeAttr(s[1..]));
      }
    }
  }

  predicate NoAdjacentSpecials(s: string) {
    forall i :: 0 <= i < |s| - 1 ==> !(IsSpecial(s[i]) && IsSpecial(s[i + 1]))
  }

  /** Where no two special characters touch, the code as written escapes correctly */
  lemma {:induction false} EscapeHtmlAgreesWhenSeparated(s: string)
    requires NoAdjacentSpecials(s)
    ensures EscapeHtml(s) == EscapeAttr(s)
    decreases |s|
  {
    if s != [] {
      assert NoAdjacentSpecials(s[1..]) by {
        forall i | 0 <= i < |s[1..]| - 1 ensures !(IsSpecial(s[1..][i]) && IsSpecial(s[1..][i + 1])) {
          assert s[1..][i] == s[i + 1] && s[1..][i + 1] == s[i + 2];
        }
      }
      EscapeHtmlAgreesWhenSeparated(s[1..]);
      if IsSpecial(s[0]) {
        assert RunLength(s) == 1 by {
          if |s| > 1 { assert !IsSpecial(s[1]); }
        }
      }
    }
  }

  /** A run of two or more special characters is emitted raw by the code as written */
  lemma {:induction false} EscapeHtmlKeepsRuns(s: string)
    requires |s| >= 2 && forall i :: 0 <= i < |s| ==> IsSpecial(s[i])
    ensures EscapeHtml(s) == s
  {
    RunAll(s);
    assert s[|s|..] == [];
  }

  lemma {:induction false} RunAll(s: string)
    requires forall i :: 0 <= i < |s| ==> IsSpecial(s[i])
    ensures RunLength(s) == |s|
  {
    if s != [] {
      RunAll(s[1..]);
    }
  }

  /** The concrete input: an attribute value `""` leaves the quotes unescaped */
  lemma EscapeHtmlQuotePair()
    ensures EscapeHtml("\"\"") == "\"\""
    ensures EscapeAttr("\"\"") == "&quot;&quot;"
  {
    EscapeHtmlKeepsRuns("\"\"");
  }

  // ---------------------------------------------------------------------
  // Attributes

  /** The value survives the attribute filter: not null, undefined or false */
  predicate Emitted(key: string, v: Node) {
    key != "children" && !v.Null? && !v.Undefined? && v != Bool(false)
  }

  function Attribute(key: string, v: Node): string {
    " " + key + "=\"" + EscapeHtml(JsString(v)) + "\""
  }

  /** The attribute string: one ` k="v"` per emitted prop, in prop order */
  function Attrs(props: Props): string {
    if props == [] then ""
    else
      (if Emitted(props[0].0, props[0].1) then Attribute(props[0].0, props[0].1) else "")
      + Attrs(props[1..])
  }

  lemma {:induction false} AttrsAppend(p: Props, q: Props)
    ensures Attrs(p + q) == Attrs(p) + Attrs(q)
  {
    if p != [] {
      assert (p + q)[1..] == p[1..] + q;
      AttrsAppend(p[1..], q);
    } else {
      assert p + q == q;
    }
  }

  /** Props the filter drops contribute nothing, wherever they stand */
  lemma AttrsSkipsDropped(p: Props, key: string, v: Node, q: Props)
    requires !Emitted(key, v)
    ensures Attrs(p + [(key, v)] + q) == Attrs(p) + Attrs(q)
  {
    AttrsAppend(p + [(key, v)], q);
    AttrsAppend(p, [(key, v)]);
  }

  /** Props the filter keeps produce ` key="escaped value"` */
  lemma AttrsKeepsEmitted(p: Props, key: string, v: Node, q: Props)
    requires Emitted(key, v)
    ensures Attrs(p + [(key, v)] + q) == Attrs(p) + Attribute(key, v) + Attrs(q)
  {
    AttrsAppend(p + [(key, v)], q);
    AttrsAppend(p, [(key, v)]);
  }

  // ---------------------------------------------------------------------
  // Components

  function Lookup(props: Props, key: string): Option<Node> {
    if props == [] then None
    else if props[0].0 == key then Some(props[0].1)
    else Lookup(props[1..], key)
  }

  /** `{...props, children}`: an existing `children` key keeps its place */
  function ComponentProps(props: Props, children: seq<Node>): (r: Props)
    ensures Lookup(r, "children") == Some(Arr(children))
    ensures forall k :: k != "children" ==> Lookup(r, k) == Lookup(props, k)
  {
    if props == [] then [("children", Arr(children))]
    else if props[0].0 == "children" then [("children", Arr(children))] + props[1..]
    else [props[0]] + ComponentProps(props[1..], children)
  }

  // ---------------------------------------------------------------------
  // Rendering

  /** The tag `node.type || 'div'` gives */
  function TagName(kind: NodeType): string {
    match kind
    case Tag(name) => if name == "" then "div" else name
    case _ => "div"
  }

  /** renderToString */
  function Render(n: Node, comps: Components, fuel: nat): string
    decreases fuel, n
  {
    match n
    case Undefined => ""
    case Null => ""
    case Num(k) => Itoa(k)
    case Str(s) => s
    case Arr(items) => RenderAll(items, comps, fuel)
    case VNode(kind, props, children) =>
      if kind.Component? then
        if fuel == 0 then ""
        else (
          match comps(kind.name, ComponentProps(props, children))
          case Throws => ""
          case Returns(m) => Render(m, comps, fuel - 1))
      else if kind.FragmentMarker? then RenderAll(children, comps, fuel)
      else
        var t := TagName(kind);
        "<" + t + Attrs(props) + ">" + RenderAll(children, comps, fuel) + "</" + t + ">"
    case Bool(_) => "<div></div>"
    case Other(_) => "<div></div>"
  }

  /** `items.map(renderToString).join('')` */
  function RenderAll(items: seq<Node>, comps: Components, fuel: nat): string
    decreases fuel, items
  {
    if items == [] then "" else Render(items[0], comps, fuel) + RenderAll(items[1..], comps, fuel)
  }

  lemma {:induction false} RenderAllAppend(a: seq<Node>, b: seq<Node>, comps: Components, fuel: nat)
    ensures RenderAll(a + b, comps, fuel) == RenderAll(a, comps, fuel) + RenderAll(b, comps, fuel)
  {
    if a != [] {
      assert (a + b)[1..] == a[1..] + b;
      RenderAllAppend(a[1..], b, comps, fuel);
    } else {
      assert a + b == b;
    }
  }

  /** Nested arrays flatten: an array renders as the concatenation of its parts */
  lemma RenderArrayAppend(a: seq<Node>, b: seq<Node>, comps: Components, fuel: nat)
    ensures Render(Arr(a + b), comps, fuel) == Render(Arr(a), comps, fuel) + Render(Arr(b), comps, fuel)
  {
    RenderAllAppend(a, b, comps, fuel);
  }

  /** A fragment emits no tag of its own and ignores its props */
  lemma RenderFragment(props: Props, children: seq<Node>, comps: Components, fuel: nat)
    ensures Render(VNode(FragmentMarker, props, children), comps, fuel)
         == Render(Arr(children), comps, fuel)
  {
  }

  /**
    A component is called with its props plus `children` and its result is
    rendered in its place; if the call throws, the subtree is empty.
  */
  lemma RenderComponent(name: string, props: Props, children: seq<Node>, comps: Components, fuel: nat)
    ensures comps(name, ComponentProps(props, children)).Throws? ==>
      Render(VNode(Component(name), props, children), comps, fuel + 1) == ""
    ensures comps(name, ComponentProps(props, children)).Returns? ==>
      Render(VNode(Component(name), props, children), comps, fuel + 1)
      == Render(comps(name, ComponentProps(props, children)).node, comps, fuel)
  {
  }

  /** An element is its tag, its attributes, its children in order and its closing tag */
  lemma RenderElement(kind: NodeType, props: Props, children: seq<Node>, comps: Components, fuel: nat)
    requires kind.Tag? || kind.Missing?
    ensures Render(VNode(kind, props, children), comps, fuel)
         == "<" + TagName(kind) + Attrs(props) + ">" + Render(Arr(children), comps, fuel)
            + "</" + TagName(kind) + ">"
  {
  }

  /** Text children are emitted raw, while the same text as an attribute value is escaped */
  lemma RenderTextIsRaw(key: string, t: string, tag: string, comps: Components, fuel: nat)
    requires key != "children" && tag != ""
    ensures Render(Str(t), comps, fuel) == t
    ensures Render(VNode(Tag(tag), [(key, Str(t))], []), comps, fuel)
         == "<" + tag + " " + key + "=\"" + EscapeHtml(t) + "\"></" + tag + ">"
  {
    RenderOneAttribute(key, Str(t), tag, comps, fuel);
  }

  lemma RenderOneAttribute(key: string, v: Node, tag: string, comps: Components, fuel: nat)
    requires Emitted(key, v) && tag != ""
    ensures Render(VNode(Tag(tag), [(key, v)], []), comps, fuel) == "<" + tag + Attribute(key, v) + "></" + tag + ">"
  {
    RenderElement(Tag(tag), [(key, v)], [], comps, fuel);
    AttrsOne(key, v);
    assert Render(Arr([]), comps, fuel) == "";
  }

  /**
    The rendered element as written: an attribute value made only of special
    characters, two or more of them, lands in the markup unescaped, so
    `title: '""'` closes the attribute early.
  */
  lemma RenderKeepsSpecialRuns(key: string, t: string, tag: string, comps: Components, fuel: nat)
    requires key != "children" && tag != ""
    requires |t| >= 2 && forall i :: 0 <= i < |t| ==> IsSpecial(t[i])
    ensures Render(VNode(Tag(tag), [(key, Str(t))], []), comps, fuel)
         == "<" + tag + " " + key + "=\"" + t + "\"></" + tag + ">"
  {
    RenderTextIsRaw(key, t, tag, comps, fuel);
    EscapeHtmlKeepsRuns(t);
  }

  /** null and undefined render as nothing, a number as its decimal digits */
  lemma RenderScalars(k: int, comps: Components, fuel: nat)
    ensures Render(Null, comps, fuel) == "" && Render(Undefined, comps, fuel) == ""
    ensures Render(Num(k), comps, fuel) == Itoa(k)
  {
  }

  lemma AttrsOne(key: string, v: Node)
    requires Emitted(key, v)
    ensures Attrs([(key, v)]) == Attribute(key, v)
  {
    var p: Props := [(key, v)];
    assert Attrs(p[1..]) == "";
  }

  /** The escaping the attribute `title="<b>"` receives */
  lemma EscapeAttrTag()
    ensures EscapeAttr("<b>") == "&lt;b&gt;"
    ensures EscapeHtml("<b>") == "&lt;b&gt;"
  {
    assert EscapeAttr(">") == "&gt;";
    assert EscapeAttr("b>") == "b&gt;";
    EscapeHtmlAgreesWhenSeparated("<b>");
  }

  /** A boolean or a bare object in child position renders as an empty div */
  lemma RenderNonNodeIsDiv(v: Node, comps: Components, fuel: nat)
    requires v.Bool? || v.Other? || v == VNode(Missing, [], []) || v == VNode(Tag(""), [], [])
    ensures Render(v, comps, fuel) == "<div></div>"
  {
  }

  /** `renderToString(h(Fragment, null, h('p', null, 'x')))` is `<p>x</p>` */
  lemma RenderFragmentExample(comps: Components, fuel: nat)
    ensures Render(H(FragmentMarker, None, [H(Tag("p"), None, [Str("x")])]), comps, fuel) == "<p>x</p>"
  {
    var p := H(Tag("p"), None, [Str("x")]);
    assert RenderAll([Str("x")], comps, fuel) == "x";
    assert Render(p, comps, fuel) == "<p>x</p>";
    assert RenderAll([p], comps, fuel) == "<p>x</p>";
  }
}
