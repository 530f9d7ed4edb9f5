/**
 * The hand-rolled XML emission tree of src/xml/element.rs: a node (tag, ordered
 * attribute pairs, children) or a text leaf, and its serialiser. Nothing is escaped.
 */
module XmlElement {
  import SeqAlgebra

  /** An attribute as the pair (name, value). */
  type Attribute = (string, string)

  datatype Element =
    | Node(tag: string, attrs: seq<Attribute>, children: seq<Element>)
    | Text(content: string)

  /** ` name="value"`, the text one attribute contributes to an open tag. */
  function RenderAttr(a: Attribute): string
  {
    " " + a.0 + "=\"" + a.1 + "\""
  }

  /** The attributes rendered one after the other, in list order. */
  function RenderAttrs(attrs: seq<Attribute>): string
  {
    if attrs == [] then "" else RenderAttrs(attrs[..|attrs| - 1]) + RenderAttr(attrs[|attrs| - 1])
  }

  /** `Element::to_string`: text is emitted verbatim; a node with no children self-closes. */
  function Render(e: Element): string
  {
    match e
    case Text(content) => content
    case Node(tag, attrs, children) =>
      if |children| == 0 then "<" + tag + RenderAttrs(attrs) + "/>"
      else "<" + tag + RenderAttrs(attrs) + ">" + RenderAll(children) + "</" + tag + ">"
  }

  /** The children rendered one after the other, in order. */
  function RenderAll(children: seq<Element>): string
  {
    if children == [] then "" else RenderAll(children[..|children| - 1]) + Render(children[|children| - 1])
  }

  /** `Element::new_node`: copies the attribute pairs one by one into a fresh list. */
  method NewNode(tag: string, attrs: seq<Attribute>, children: seq<Element>) returns (e: Element)
    ensures e.Node? && e.tag == tag && e.children == children
    ensures |e.attrs| == |attrs|
    ensures forall i :: 0 <= i < |attrs| ==> e.attrs[i].0 == attrs[i].0 && e.attrs[i].1 == attrs[i].1
  {
    var sAttrs: seq<Attribute> := [];
    for i := 0 to |attrs|
      invariant sAttrs == attrs[..i]
    {
      sAttrs := sAttrs + [(attrs[i].0, attrs[i].1)];
    }
    e := Node(tag, sAttrs, children);
  }

  /** `Element::new_text`. */
  function NewText(content: string): (e: Element)
    ensures e.Text? && e.content == content
    ensures Render(e) == content
  {
    Text(content)
  }

  /**
   * `Element::to_string` as the source writes it: a string accumulated over a loop on
   * the attributes and a loop on the children, recursing into each child.
   */
  method ToString(e: Element) returns (s: string)
    ensures s == Render(e)
    decreases e
  {
    match e {
      case Text(content) =>
        s := content;
      case Node(tag, attrs, children) =>
        s := "<" + tag;
        ghost var head := s;
        for i := 0 to |attrs|
          invariant s == head + RenderAttrs(attrs[..i])
        {
          assert attrs[..i + 1][..i] == attrs[..i];
          SeqAlgebra.ConcatAssoc(head, RenderAttrs(attrs[..i]), RenderAttr(attrs[i]));
          s := s + RenderAttr(attrs[i]);
        }
        assert attrs[..|attrs|] == attrs;
        if |children| == 0 {
          s := s + "/>";
        } else {
          s := s + ">";
          ghost var open := s;
          for i := 0 to |children|
            invariant s == open + RenderAll(children[..i])
          {
            assert children[..i + 1][..i] == children[..i];
            assert children[i] in children;
            var child := ToString(children[i]);
            SeqAlgebra.ConcatAssoc(open, RenderAll(children[..i]), child);
            s := s + child;
          }
          assert children[..|children|] == children;
          s := s + "</" + tag + ">";
        }
    }
  }

  /** Rendering a concatenation of children is the concatenation of the renderings. */
  lemma {:induction false} RenderAllAppend(xs: seq<Element>, ys: seq<Element>)
    ensures RenderAll(xs + ys) == RenderAll(xs) + RenderAll(ys)
    decreases |ys|
  {
    if ys == [] {
      assert xs + ys == xs;
    } else {
      var n := |ys| - 1;
      assert (xs + ys)[..|xs + ys| - 1] == xs + ys[..n];
      RenderAllAppend(xs, ys[..n]);
    }
  }

  /** Rendering a concatenation of attribute lists is the concatenation of the renderings. */
  lemma {:induction false} RenderAttrsAppend(xs: seq<Attribute>, ys: seq<Attribute>)
    ensures RenderAttrs(xs + ys) == RenderAttrs(xs) + RenderAttrs(ys)
    decreases |ys|
  {
    if ys == [] {
      assert xs + ys == xs;
    } else {
      var n := |ys| - 1;
      assert (xs + ys)[..|xs + ys| - 1] == xs + ys[..n];
      RenderAttrsAppend(xs, ys[..n]);
    }
  }

  /** Each attribute contributes ` name="value"`, in list order. */
  lemma {:induction false} RenderAttrsCons(a: Attribute, rest: seq<Attribute>)
    ensures RenderAttrs([a] + rest) == " " + a.0 + "=\"" + a.1 + "\"" + RenderAttrs(rest)
  {
    RenderAttrsAppend([a], rest);
    assert [a][..0] == [];
  }

  /** A node with no children renders self-closing: `<tag` + attributes + `/>`. */
  lemma RenderEmptyNode(tag: string, attrs: seq<Attribute>)
    ensures Render(Node(tag, attrs, [])) == "<" + tag + RenderAttrs(attrs) + "/>"
  {
  }

  /**
   * A node with children renders `<tag` + attributes + `>`, then each child in order,
   * then `</tag>`.
   */
  lemma {:induction false} RenderNodeWithChildren(tag: string, attrs: seq<Attribute>, first: Element, rest: seq<Element>)
    ensures Render(Node(tag, attrs, [first] + rest))
         == "<" + tag + RenderAttrs(attrs) + ">" + Render(first) + RenderAll(rest) + "</" + tag + ">"
  {
    RenderAllAppend([first], rest);
    assert [first][..0] == [];
  }

  /** A node with children is its open tag, its children's text and its close tag. */
  lemma RenderNodeParts(tag: string, attrs: seq<Attribute>, children: seq<Element>)
    requires |children| > 0
    ensures Render(Node(tag, attrs, children))
         == ("<" + tag + RenderAttrs(attrs) + ">") + RenderAll(children) + ("</" + tag + ">")
  {
  }

  /**
   * The self-closing test is on the number of children, not on the text: a node whose
   * only child is the empty text renders as an open and a close tag.
   */
  lemma RenderEmptyTextChild(tag: string, attrs: seq<Attribute>)
    ensures Render(Node(tag, attrs, [Text("")])) == "<" + tag + RenderAttrs(attrs) + "></" + tag + ">"
  {
    assert [Text("")][..0] == [];
  }

  /**
   * Text is written verbatim, so a node holding the rendering of `e` as text renders
   * exactly like the node holding `e` itself, although the two trees differ when `e`
   * is a node: markup in a text leaf is not escaped.
   */
  lemma TextIsNotEscaped(tag: string, attrs: seq<Attribute>, e: Element)
    ensures Render(Node(tag, attrs, [Text(Render(e))])) == Render(Node(tag, attrs, [e]))
    ensures e.Node? ==> Node(tag, attrs, [Text(Render(e))]) != Node(tag, attrs, [e])
  {
    var children := [Text(Render(e))];
    assert children[..0] == [];
    assert RenderAll(children) == Render(e);
    assert [e][..0] == [];
    assert RenderAll([e]) == Render(e);
  }

  /** `<a><b/></a>` as text or as a child node: the same rendering. */
  lemma UnescapedMarkup()
    ensures Render(Node("a", [], [Text("<b/>")])) == Render(Node("a", [], [Node("b", [], [])]))
    ensures Node("a", [], [Text("<b/>")]) != Node("a", [], [Node("b", [], [])])
  {
    TextIsNotEscaped("a", [], Node("b", [], []));
    assert Render(Node("b", [], [])) == "<b/>" by {
      assert "<" + "b" + RenderAttrs([]) + "/>" == "<b/>";
    }
  }
}
