/**
 * The draft WSDL builder of src/soap/wsdl.rs: `definitions` with the namespace used
 * verbatim, the schema imports and, per call, a request and a response `message`.
 * It has no portType, binding or service section, and it types each part by the
 * text the slot currently holds. The list of calls, which the source fetches from
 * the service through an accessor that does not exist, is a parameter.
 */
module SoapWsdl {
  import opened Types
  import opened XmlElement
  import opened Uris
  import Wsdl

  /** The index of the first `.` of `s`, or `|s|` when there is none. */
  function DotIndex(s: string): (i: nat)
    ensures i <= |s|
    ensures forall j :: 0 <= j < i ==> s[j] != '.'
    ensures i < |s| <==> '.' in s
    ensures i < |s| ==> s[i] == '.'
  {
    if s == [] then 0
    else if s[0] == '.' then 0
    else
      var i := 1 + DotIndex(s[1..]);
      assert forall j :: 1 <= j < i ==> s[j] == s[1..][j - 1];
      assert '.' in s[1..] ==> '.' in s;
      assert '.' in s ==> '.' in s[1..] by {
        if '.' in s {
          var k :| 0 <= k < |s| && s[k] == '.';
          assert s[1..][k - 1] == '.';
        }
      }
      i
  }

  /**
   * The first two pieces of the namespace split at `.`. The second piece exists only
   * when the namespace contains a `.`, which is why the source's second `unwrap`
   * demands one.
   */
  function SplitNamespace(namespace: string): (pieces: (string, string))
    requires '.' in namespace
    ensures var (server, service) := pieces;
            && '.' !in server && '.' !in service
            && |server| < |namespace| && namespace[..|server|] == server && namespace[|server|] == '.'
            && |server| + 1 + |service| <= |namespace|
            && namespace[|server| + 1..|server| + 1 + |service|] == service
            && (|server| + 1 + |service| < |namespace| ==> namespace[|server| + 1 + |service|] == '.')
  {
    var d := DotIndex(namespace);
    var rest := namespace[d + 1..];
    var e := DotIndex(rest);
    assert namespace[d + 1..d + 1 + e] == rest[..e];
    (namespace[..d], rest[..e])
  }

  /** The first dot of `a.rest` is right after `a` when `a` has none. */
  lemma DotAfter(a: string, rest: string)
    requires '.' !in a
    ensures DotIndex(a + "." + rest) == |a|
  {
    var s := a + "." + rest;
    assert s[|a|] == '.';
    assert forall j :: 0 <= j < |a| ==> s[j] == a[j];
  }

  /** Only the first two pieces are taken: whatever follows a second dot is dropped. */
  lemma SplitDropsThird(server: string, service: string, rest: string)
    requires '.' !in server && '.' !in service
    ensures SplitNamespace(server + "." + service + "." + rest) == (server, service)
  {
    var s := server + "." + service + "." + rest;
    assert s == server + "." + (service + "." + rest);
    DotAfter(server, service + "." + rest);
    var tail := s[|server| + 1..];
    assert tail == service + "." + rest;
    DotAfter(service, rest);
    assert s[..|server|] == server;
    assert tail[..|service|] == service;
  }

  /** `type_to_xsd` of this draft: the text a string value holds; "" for any other value. */
  function ValueToXsd(v: Value): (s: string)
    ensures v.String? ==> s == v.s
    ensures !v.String? ==> s == ""
  {
    match v
    case String(s) => s
    case _ => ""
  }

  /** One `xsd:import` per schema URI, in the given order. */
  function ImportsXml(schemas: seq<string>): (es: seq<Element>)
    ensures |es| == |schemas|
    ensures forall k :: 0 <= k < |schemas| ==> es[k] == Node("xsd:import", [("namespace", schemas[k])], [])
  {
    if schemas == [] then []
    else ImportsXml(schemas[..|schemas| - 1]) + [Node("xsd:import", [("namespace", schemas[|schemas| - 1])], [])]
  }

  /** The tree `schema_import` builds. */
  function SchemaImportXml(namespace: string, schemas: seq<string>): Element
  {
    Node("types", [], [Node("xsd:schema", [("targetNamespace", namespace)], ImportsXml(schemas))])
  }

  /** `schema_import`: the imports appended to the schema in a loop. */
  method SchemaImport(namespace: string, schemas: seq<string>) returns (types: Element)
    ensures types == SchemaImportXml(namespace, schemas)
  {
    var imports: seq<Element> := [];
    for k := 0 to |schemas|
      invariant imports == ImportsXml(schemas[..k])
    {
      assert schemas[..k + 1][..k] == schemas[..k];
      imports := imports + [Node("xsd:import", [("namespace", schemas[k])], [])];
    }
    assert schemas[..|schemas|] == schemas;
    var schema := Node("xsd:schema", [("targetNamespace", namespace)], imports);
    types := Node("types", [], [schema]);
  }

  /** A `part` carrying the slot's name and, as its type, the slot's current text. */
  function PartXml(name: string, slot: Data): Element
  {
    Node("part", [("name", name), ("type", ValueToXsd(slot.vl))], [])
  }

  function PartsXml(args: FnArgs): (es: seq<Element>)
    ensures |es| == |args|
    ensures forall k :: 0 <= k < |args| ==> es[k] == PartXml(args[k].0, args[k].1)
  {
    if args == [] then []
    else PartsXml(args[..|args| - 1]) + [PartXml(args[|args| - 1].0, args[|args| - 1].1)]
  }

  /** The tree `register_arguments` builds: `<name>Request` with one part per argument. */
  function RequestXml(call: RemoteCall): Element
  {
    Node("message", [("name", call.name + "Request")], PartsXml(call.arguments))
  }

  /** `register_arguments`: the parts appended to the message in a loop. */
  method RegisterArguments(call: RemoteCall) returns (message: Element)
    ensures message == RequestXml(call)
  {
    var parts: seq<Element> := [];
    for k := 0 to |call.arguments|
      invariant parts == PartsXml(call.arguments[..k])
    {
      assert call.arguments[..k + 1][..k] == call.arguments[..k];
      var (name, arg) := call.arguments[k];
      parts := parts + [Node("part", [("name", name), ("type", ValueToXsd(arg.vl))], [])];
    }
    assert call.arguments[..|call.arguments|] == call.arguments;
    message := Node("message", [("name", call.name + "Request")], parts);
  }

  /**
   * `register_return`: `<name>Response` with a single part; the part is named
   * `result` whatever the result slot is called.
   */
  function ResponseXml(call: RemoteCall): (e: Element)
    ensures e.Node? && e.tag == "message" && e.attrs == [("name", call.name + "Response")]
    ensures e.children == [Node("part", [("name", "result"), ("type", ValueToXsd(call.result.vl))], [])]
  {
    Node("message", [("name", call.name + "Response")], [PartXml("result", call.result)])
  }

  /** Per call, in order, its request message followed by its response message. */
  function MessagesXml(calls: seq<RemoteCall>): (ms: seq<Element>)
    ensures |ms| == 2 * |calls|
    ensures forall i :: 0 <= i < |calls| ==> ms[2 * i] == RequestXml(calls[i]) && ms[2 * i + 1] == ResponseXml(calls[i])
  {
    if calls == [] then []
    else
      var n := |calls| - 1;
      assert forall i :: 0 <= i < n ==> calls[..n][i] == calls[i];
      MessagesXml(calls[..n]) + [RequestXml(calls[n]), ResponseXml(calls[n])]
  }

  /** The schemas `definitions` imports: SOAP encoding, then WSDL. */
  const Schemas: seq<string> := [EncodingNs, WsdlNs]

  /** The tree `definitions` builds. The namespace is `tns` and the target namespace as it is. */
  function DefinitionsXml(namespace: string, calls: seq<RemoteCall>): Element
  {
    Node("definitions", Wsdl.Namespaces(namespace), [SchemaImportXml(namespace, Schemas)] + MessagesXml(calls))
  }

  /** `definitions`: splits the namespace, then appends the imports and each call's two messages. */
  method Definitions(namespace: string, calls: seq<RemoteCall>) returns (definitions: Element)
    requires '.' in namespace
    ensures definitions == DefinitionsXml(namespace, calls)
  {
    var (serverNs, serviceNs) := SplitNamespace(namespace);
    var types := SchemaImport(namespace, Schemas);
    var children := [types];
    for i := 0 to |calls|
      invariant children == [types] + MessagesXml(calls[..i])
    {
      assert calls[..i + 1][..i] == calls[..i];
      var request := RegisterArguments(calls[i]);
      children := children + [request];
      children := children + [ResponseXml(calls[i])];
    }
    assert calls[..|calls|] == calls;
    definitions := Node("definitions", Wsdl.Namespaces(namespace), children);
  }

  /**
   * `xmlns:tns` and `targetNamespace` are both the namespace itself, with no `urn:`
   * prefix, and the schema's target namespace is too.
   */
  lemma NamespaceVerbatim(namespace: string, calls: seq<RemoteCall>)
    ensures var d := DefinitionsXml(namespace, calls);
            && |d.attrs| == 8
            && d.attrs[6] == ("xmlns:tns", namespace)
            && d.attrs[7] == ("targetNamespace", namespace)
            && d.children[0].children[0].attrs == [("targetNamespace", namespace)]
  {
  }

  /**
   * The children: the import section, then each call's request and response
   * messages in order. There are 2n+1 of them, and none is a portType, a binding
   * or a service.
   */
  lemma DefinitionsChildren(namespace: string, calls: seq<RemoteCall>)
    ensures var cs := DefinitionsXml(namespace, calls).children;
            && |cs| == 1 + 2 * |calls|
            && cs[0] == SchemaImportXml(namespace, Schemas)
            && (forall i :: 0 <= i < |calls| ==> cs[1 + 2 * i] == RequestXml(calls[i]) && cs[2 + 2 * i] == ResponseXml(calls[i]))
            && (forall j :: 0 <= j < |cs| ==> cs[j].Node? && (cs[j].tag == "types" || cs[j].tag == "message"))
  {
    var cs := DefinitionsXml(namespace, calls).children;
    var ms := MessagesXml(calls);
    assert forall j :: 1 <= j < |cs| ==> cs[j] == ms[j - 1];
    forall j | 1 <= j < |cs|
      ensures cs[j].Node? && cs[j].tag == "message"
    {
      var i := (j - 1) / 2;
      assert cs[j] == ms[j - 1];
      if j - 1 == 2 * i {
        assert ms[2 * i] == RequestXml(calls[i]);
      } else {
        assert j - 1 == 2 * i + 1;
        assert ms[2 * i + 1] == ResponseXml(calls[i]);
      }
    }
  }

  /**
   * The import section is the same `types` element the registry's generator builds,
   * here for the namespace itself instead of its `urn:` form.
   */
  lemma SchemaImportMatchesRegistry(namespace: string)
    ensures SchemaImportXml(namespace, Schemas) == Wsdl.TypesSection(namespace)
  {
    var es := ImportsXml(Schemas);
    assert es[0] == Node("xsd:import", [("namespace", EncodingNs)], []);
    assert es[1] == Node("xsd:import", [("namespace", WsdlNs)], []);
    assert es == [es[0], es[1]];
  }

  /**
   * A request message has the registry's name and part names; the part types differ,
   * since the draft reads the slot's value where the registry reads its type.
   */
  lemma RequestMatchesRegistry(call: RemoteCall)
    ensures RequestXml(call).tag == Wsdl.RequestMessage(call).tag
    ensures RequestXml(call).attrs == Wsdl.RequestMessage(call).attrs
    ensures |RequestXml(call).children| == |Wsdl.RequestMessage(call).children|
    ensures forall k :: 0 <= k < |call.arguments| ==>
              RequestXml(call).children[k].attrs[0] == Wsdl.RequestMessage(call).children[k].attrs[0] == ("name", call.arguments[k].0)
  {
  }

  /** Slots that hold no text (as every slot `Data::new` creates) give parts with an empty type. */
  lemma UnboundPartsUntyped(call: RemoteCall)
    requires forall k :: 0 <= k < |call.arguments| ==> call.arguments[k].1.vl.Null?
    ensures forall k :: 0 <= k < |call.arguments| ==> RequestXml(call).children[k].attrs[1] == ("type", "")
  {
  }

  /**
   * Unlike the registry's cached description, the draft changes when a slot is bound:
   * a string slot set to `text` declares `text` as its part's type.
   */
  lemma BoundPartTypedByText(call: RemoteCall, k: nat, text: string)
    requires k < |call.arguments| && call.arguments[k].1.ty.String?
    ensures var slot := call.arguments[k].1.SetValue(text);
            var bound := call.(arguments := call.arguments[k := (call.arguments[k].0, slot)]);
            RequestXml(bound).children[k].attrs[1] == ("type", text)
  {
  }
}
