/**
 * The SOAP 1.1 Fault element of src/soap/fault.rs (section 4.4 of the SOAP 1.1 note):
 * the four fault codes of section 4.4.1, the fault record and the element tree
 * `Fault::to_xml` builds, a `faultcode`, an always present `faultstring` and the
 * optional `faultactor` and `detail`.
 */
module SoapFault {
  import opened XmlElement
  import opened Wrappers

  datatype FaultCode = VersionMismatch | MustUnderstand | Client | Server

  /** The qualified code name, as the `faultcode` text. */
  function CodeText(code: FaultCode): string
  {
    match code
    case VersionMismatch => "SOAP-ENV:VersionMismatch"
    case MustUnderstand => "SOAP-ENV:MustUnderstand"
    case Server => "SOAP-ENV:Server"
    case Client => "SOAP-ENV:Client"
  }

  /** The code a `faultcode` text names, if any. */
  function CodeOf(text: string): Option<FaultCode>
  {
    if text == "SOAP-ENV:VersionMismatch" then Some(VersionMismatch)
    else if text == "SOAP-ENV:MustUnderstand" then Some(MustUnderstand)
    else if text == "SOAP-ENV:Server" then Some(Server)
    else if text == "SOAP-ENV:Client" then Some(Client)
    else None
  }

  /** Each code's text names that code and no other. */
  lemma CodeTextInverse(code: FaultCode)
    ensures CodeOf(CodeText(code)) == Some(code)
  {
  }

  /** Every child element of a fault is typed as a schema string. */
  const StringType: seq<Attribute> := [("xsi:type", "xsd:string")]

  /** `FaultCode::to_xml`: a `faultcode` element typed as a string and holding the code's text. */
  function CodeXml(code: FaultCode): (e: Element)
    ensures e.Node? && e.tag == "faultcode" && e.attrs == StringType
    ensures e.children == [Text(CodeText(code))]
  {
    Node("faultcode", StringType, [Text(CodeText(code))])
  }

  /** Different codes give different `faultcode` elements. */
  lemma CodeXmlInjective(a: FaultCode, b: FaultCode)
    requires CodeXml(a) == CodeXml(b)
    ensures a == b
  {
    CodeTextInverse(a);
    CodeTextInverse(b);
    assert CodeXml(a).children[0].content == CodeText(a);
  }

  datatype Fault = Fault(code: FaultCode, faultString: string, actor: string, detail: string)

  /** `Fault::new`: the code, and the three texts copied verbatim. */
  function NewFault(code: FaultCode, faultString: string, actor: string, detail: string): (f: Fault)
    ensures f.code == code && f.faultString == faultString && f.actor == actor && f.detail == detail
  {
    Fault(code, faultString, actor, detail)
  }

  function VersionMismatchFault(faultString: string, actor: string, detail: string): (f: Fault)
    ensures f == NewFault(VersionMismatch, faultString, actor, detail)
    ensures CodeText(f.code) == "SOAP-ENV:VersionMismatch"
  {
    NewFault(VersionMismatch, faultString, actor, detail)
  }

  function MustUnderstandFault(faultString: string, actor: string, detail: string): (f: Fault)
    ensures f == NewFault(MustUnderstand, faultString, actor, detail)
    ensures CodeText(f.code) == "SOAP-ENV:MustUnderstand"
  {
    NewFault(MustUnderstand, faultString, actor, detail)
  }

  function ServerFault(faultString: string, actor: string, detail: string): (f: Fault)
    ensures f == NewFault(Server, faultString, actor, detail)
    ensures CodeText(f.code) == "SOAP-ENV:Server"
  {
    NewFault(Server, faultString, actor, detail)
  }

  function ClientFault(faultString: string, actor: string, detail: string): (f: Fault)
    ensures f == NewFault(Client, faultString, actor, detail)
    ensures CodeText(f.code) == "SOAP-ENV:Client"
  {
    NewFault(Client, faultString, actor, detail)
  }

  /** A string-typed element holding `text`, or nothing at all when `text` is empty. */
  function OptionalChild(tag: string, text: string): (es: seq<Element>)
    ensures |es| == (if text == "" then 0 else 1)
  {
    if text == "" then [] else [Node(tag, StringType, [Text(text)])]
  }

  /** The `faultstring` element, with a text child only when the string is non-empty. */
  function StringXml(faultString: string): Element
  {
    Node("faultstring", StringType, if faultString == "" then [] else [Text(faultString)])
  }

  /** The tree `Fault::to_xml` builds. */
  function FaultXml(f: Fault): Element
  {
    Node("SOAP-ENV:Fault", [],
      [CodeXml(f.code), StringXml(f.faultString)] + OptionalChild("faultactor", f.actor) + OptionalChild("detail", f.detail))
  }

  /** `Fault::to_xml`: the children appended one by one, the optional ones under a test. */
  method ToXml(f: Fault) returns (fault: Element)
    ensures fault == FaultXml(f)
  {
    var children: seq<Element> := [];
    var code := CodeXml(f.code);
    children := children + [code];
    var stringChildren: seq<Element> := [];
    if f.faultString != "" {
      stringChildren := stringChildren + [Text(f.faultString)];
    }
    assert stringChildren == StringXml(f.faultString).children;
    children := children + [Node("faultstring", StringType, stringChildren)];
    assert children == [CodeXml(f.code), StringXml(f.faultString)];
    if f.actor != "" {
      children := children + [Node("faultactor", StringType, [Text(f.actor)])];
    }
    assert children == [CodeXml(f.code), StringXml(f.faultString)] + OptionalChild("faultactor", f.actor);
    if f.detail != "" {
      children := children + [Node("detail", StringType, [Text(f.detail)])];
    }
    assert children == FaultXml(f).children;
    fault := Node("SOAP-ENV:Fault", [], children);
  }

  /** Whether some child is an element with the given tag. */
  predicate HasChild(e: Element, tag: string)
    requires e.Node?
  {
    exists i :: 0 <= i < |e.children| && e.children[i].Node? && e.children[i].tag == tag
  }

  /** The fault has 2 + [actor non-empty] + [detail non-empty] children. */
  lemma FaultChildCount(f: Fault)
    ensures |FaultXml(f).children| == 2 + (if f.actor == "" then 0 else 1) + (if f.detail == "" then 0 else 1)
  {
  }

  /**
   * The order of the children: the code first, the string second, then the actor
   * if present, and the detail last if present.
   */
  lemma FaultChildOrder(f: Fault)
    ensures var cs := FaultXml(f).children;
            && cs[0] == CodeXml(f.code)
            && cs[1].Node? && cs[1].tag == "faultstring" && cs[1].attrs == StringType
            && (f.actor != "" ==> cs[2] == Node("faultactor", StringType, [Text(f.actor)]))
            && (f.detail != "" ==> cs[|cs| - 1] == Node("detail", StringType, [Text(f.detail)]))
  {
  }

  /** The string element is always there; it has a text child exactly when the string is non-empty. */
  lemma FaultStringAlways(f: Fault)
    ensures HasChild(FaultXml(f), "faultstring")
    ensures var s := FaultXml(f).children[1];
            && (f.faultString != "" <==> |s.children| == 1)
            && (f.faultString != "" ==> s.children[0] == Text(f.faultString))
  {
    assert FaultXml(f).children[1].tag == "faultstring";
  }

  /** `faultactor` is present exactly when the actor is non-empty, and `detail` when the detail is. */
  lemma FaultOptionalChildren(f: Fault)
    ensures HasChild(FaultXml(f), "faultactor") <==> f.actor != ""
    ensures HasChild(FaultXml(f), "detail") <==> f.detail != ""
  {
    var e := FaultXml(f);
    var cs := e.children;
    if f.actor != "" {
      assert cs[2].tag == "faultactor";
    }
    if f.detail != "" {
      assert cs[|cs| - 1].tag == "detail";
    }
    forall i | 0 <= i < |cs| && cs[i].Node?
      ensures cs[i].tag == "faultactor" ==> f.actor != ""
      ensures cs[i].tag == "detail" ==> f.detail != ""
    {
      if i == 0 {
        assert cs[i].tag == "faultcode";
      } else if i == 1 {
        assert cs[i].tag == "faultstring";
      }
    }
  }

  /** The text of an element whose only child is a text leaf; otherwise "". */
  function TextOf(e: Element): string
  {
    if e.Node? && |e.children| == 1 && e.children[0].Text? then e.children[0].content else ""
  }

  /** Reads a fault back from its element tree. */
  function ParseFault(e: Element): Option<Fault>
  {
    if !e.Node? || e.tag != "SOAP-ENV:Fault" || |e.children| < 2 then None
    else
      var code := CodeOf(TextOf(e.children[0]));
      if code.None? then None
      else
        var rest := e.children[2..];
        var actor := if |rest| > 0 && rest[0].Node? && rest[0].tag == "faultactor" then TextOf(rest[0]) else "";
        var last := |rest| - 1;
        var detail := if |rest| > 0 && rest[last].Node? && rest[last].tag == "detail" then TextOf(rest[last]) else "";
        Some(Fault(code.value, TextOf(e.children[1]), actor, detail))
  }

  /** The tree keeps everything the fault holds: reading it back gives the fault itself. */
  lemma FaultRoundTrip(f: Fault)
    ensures ParseFault(FaultXml(f)) == Some(f)
  {
    CodeTextInverse(f.code);
    var cs := FaultXml(f).children;
    assert TextOf(cs[0]) == CodeText(f.code);
    assert TextOf(cs[1]) == f.faultString;
  }
}
