/**
 * The `Response` of src/soap/response.rs: an operation name with its result parts,
 * and the SOAP Envelope tree `to_xml_string` builds for it, one `return` element per
 * result inside `<ns1:<operation>Response>`.
 */
module SoapReply {
  import opened XmlElement
  import opened SoapPart
  import opened Uris
  import opened Wrappers

  /**
   * The result parts are kept as the (name, part) entries in the order the map
   * yields them.
   */
  datatype Response = Response(operation: string, responses: seq<(string, Part)>)

  /** `Response::from`: the operation name and the results are kept as given. */
  function From(operation: string, responses: seq<(string, Part)>): (r: Response)
    ensures r.operation == operation && r.responses == responses
  {
    Response(operation, responses)
  }

  /** `Response::not_found`: the empty text. */
  function NotFound(): (s: string)
    ensures |s| == 0
  {
    ""
  }

  /** The text a part contributes: a string part's own text, and "" for every other kind. */
  function Content(p: Part): string
  {
    match p
    case String(s) => s
    case _ => ""
  }

  /** One `return`, typed by the part's schema type, with a text child only for non-empty content. */
  function ReturnXml(p: Part): Element
  {
    var content := Content(p);
    Node("return", [("xsi:type", XsdType(p))], if content != "" then [Text(content)] else [])
  }

  /** The `return` elements, one per result, in order; the entry names are not used. */
  function ReturnsXml(responses: seq<(string, Part)>): (es: seq<Element>)
    ensures |es| == |responses|
    ensures forall i :: 0 <= i < |responses| ==> es[i] == ReturnXml(responses[i].1)
  {
    if responses == [] then []
    else
      var n := |responses| - 1;
      ReturnsXml(responses[..n]) + [ReturnXml(responses[n].1)]
  }

  /** `ns1:<operation>Response`. */
  function ResultTag(operation: string): string
  {
    "ns1:" + operation + "Response"
  }

  /** The tree `to_xml_string` builds and hands to the document writer. */
  function EnvelopeXml(r: Response): Element
  {
    Node("SOAP-ENV:Envelope", EnvelopeAttrs,
      [Node("SOAP-ENV:Body", [],
        [Node(ResultTag(r.operation), [], ReturnsXml(r.responses))])])
  }

  /** `to_xml_string` up to the writer: the `return` elements appended in a loop. */
  method ToXml(r: Response) returns (envelope: Element)
    ensures envelope == EnvelopeXml(r)
  {
    var rets: seq<Element> := [];
    for i := 0 to |r.responses|
      invariant rets == ReturnsXml(r.responses[..i])
    {
      assert r.responses[..i + 1][..i] == r.responses[..i];
      var (_, part) := r.responses[i];
      var content := match part case String(s) => s case _ => "";
      var children: seq<Element> := [];
      if content != "" {
        children := children + [Text(content)];
      }
      assert content == Content(part) && children == ReturnXml(part).children;
      rets := rets + [Node("return", [("xsi:type", XsdType(part))], children)];
    }
    assert r.responses[..|r.responses|] == r.responses;
    var res := Node(ResultTag(r.operation), [], rets);
    var body := Node("SOAP-ENV:Body", [], [res]);
    envelope := Node("SOAP-ENV:Envelope", EnvelopeAttrs, [body]);
  }

  /**
   * The Envelope declares exactly the `xsd`, `xsi` and `SOAP-ENV` namespaces and holds
   * one Body, which holds one element named after the operation.
   */
  lemma EnvelopeShape(r: Response)
    ensures var e := EnvelopeXml(r);
            && e.tag == "SOAP-ENV:Envelope"
            && |e.attrs| == 3
            && e.attrs[0] == ("xmlns:xsd", XsdNs)
            && e.attrs[1] == ("xmlns:xsi", XsiNs)
            && e.attrs[2] == ("xmlns:SOAP-ENV", EnvelopeNs)
            && |e.children| == 1 && e.children[0].Node? && e.children[0].tag == "SOAP-ENV:Body"
            && |e.children[0].children| == 1
            && e.children[0].children[0].Node?
            && e.children[0].children[0].tag == "ns1:" + r.operation + "Response"
  {
  }

  /**
   * There is one `return` per result, typed `xsd:string`, and it has a text child
   * exactly when the part is a string part with non-empty text.
   */
  lemma ReturnsShape(r: Response, i: nat)
    requires i < |r.responses|
    ensures var res := EnvelopeXml(r).children[0].children[0];
            && |res.children| == |r.responses|
            && res.children[i].Node? && res.children[i].tag == "return"
            && res.children[i].attrs == [("xsi:type", "xsd:string")]
            && (|res.children[i].children| == 1 <==> r.responses[i].1.String? && r.responses[i].1.text != "")
            && (|res.children[i].children| == 0 <==> !(r.responses[i].1.String? && r.responses[i].1.text != ""))
  {
  }

  /** The operation named by a result tag `ns1:<operation>Response`, if the tag has that form. */
  function OperationOfTag(tag: string): Option<string>
  {
    if |tag| >= 12 && tag[..4] == "ns1:" && tag[|tag| - 8..] == "Response" then Some(tag[4..|tag| - 8]) else None
  }

  /** The operation an Envelope answers, read from the element inside its Body. */
  function OperationOf(e: Element): Option<string>
  {
    if e.Node? && |e.children| == 1 && e.children[0].Node? && |e.children[0].children| == 1
       && e.children[0].children[0].Node?
    then OperationOfTag(e.children[0].children[0].tag)
    else None
  }

  /** The text of each `return`, read back in order (an empty `return` reads as ""). */
  function ContentsOf(elements: seq<Element>): (cs: seq<string>)
    ensures |cs| == |elements|
  {
    if elements == [] then []
    else
      var n := |elements| - 1;
      var last := elements[n];
      ContentsOf(elements[..n]) + [if last.Node? && |last.children| == 1 && last.children[0].Text? then last.children[0].content else ""]
  }

  /** The contents of the results, in order. */
  function Contents(responses: seq<(string, Part)>): (cs: seq<string>)
    ensures |cs| == |responses|
  {
    if responses == [] then [] else Contents(responses[..|responses| - 1]) + [Content(responses[|responses| - 1].1)]
  }

  /** The result tag gives back the operation name. */
  lemma OperationRoundTrip(r: Response)
    ensures OperationOf(EnvelopeXml(r)) == Some(r.operation)
  {
    var tag := ResultTag(r.operation);
    assert tag[..4] == "ns1:";
    assert tag[|tag| - 8..] == "Response";
    assert tag[4..|tag| - 8] == r.operation;
  }

  /** The `return` elements give back every result's content, in order. */
  lemma {:induction false} ContentsRoundTrip(responses: seq<(string, Part)>)
    ensures ContentsOf(ReturnsXml(responses)) == Contents(responses)
    decreases |responses|
  {
    if responses != [] {
      var n := |responses| - 1;
      var es := ReturnsXml(responses);
      assert es[..n] == ReturnsXml(responses[..n]);
      ContentsRoundTrip(responses[..n]);
    }
  }

  /** Only the parts matter: results that differ in their entry names give the same tree. */
  lemma NamesUnused(r: Response, s: Response)
    requires r.operation == s.operation && |r.responses| == |s.responses|
    requires forall i :: 0 <= i < |r.responses| ==> r.responses[i].1 == s.responses[i].1
    ensures EnvelopeXml(r) == EnvelopeXml(s)
  {
    assert ReturnsXml(r.responses) == ReturnsXml(s.responses);
  }
}
