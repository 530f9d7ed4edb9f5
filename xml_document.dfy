/** The document wrapper of src/xml/document.rs: an encoding and a root element. */
module XmlDocument {
  import opened XmlElement

  /** The XML declaration the document text starts with. */
  function Declaration(encoding: string): string
  {
    "<?xml version=\"1.0\" encoding=\"" + encoding + "\"?>"
  }

  /** The text of a document with this encoding and root, as `Document::to_string` builds it. */
  function DocumentText(encoding: string, root: Element): (s: string)
    ensures |s| >= |Declaration(encoding)|
    ensures s[..|Declaration(encoding)|] == Declaration(encoding)
    ensures s[|Declaration(encoding)|..] == Render(root)
  {
    Declaration(encoding) + Render(root)
  }

  /** The element a fresh document holds until a root is set. */
  const DefaultRoot: Element := Node("xml", [], [])

  class Document {
    const encoding: string
    var root: Element

    /** `Document::new`: stores the encoding and the placeholder root `<xml/>`. */
    constructor (encoding: string)
      ensures this.encoding == encoding && root == DefaultRoot
      ensures ToString() == Declaration(encoding) + "<xml/>"
    {
      this.encoding := encoding;
      root := DefaultRoot;
    }

    /** `Document::set_root`: replaces the root; the encoding is a constant field. */
    method SetRoot(element: Element)
      modifies this
      ensures GetRoot() == element
      ensures ToString() == DocumentText(encoding, element)
    {
      root := element;
    }

    /** `Document::get_root`. */
    function GetRoot(): Element
      reads this
    {
      root
    }

    /** `Document::to_string`: the declaration followed by the rendered root. */
    function ToString(): (s: string)
      reads this
      ensures s == DocumentText(encoding, root)
      ensures s[..|Declaration(encoding)|] == Declaration(encoding)
      ensures s[|Declaration(encoding)|..] == Render(root)
    {
      DocumentText(encoding, root)
    }
  }
}
