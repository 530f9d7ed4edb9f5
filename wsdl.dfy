/**
 * The registry of remote calls of src/wsdl.rs and the WSDL 1.1 description it
 * serves: `definitions` with the schema imports, a request and a response
 * `message` per call, the `portType`, the rpc/encoded `binding` and the `service`
 * with its fixed address. The rendered document is cached as UTF-8 bytes and
 * rebuilt only after a call has been added.
 */
module Wsdl {
  import opened Errors
  import opened Types
  import opened XmlElement
  import opened XmlDocument
  import opened Uris
  import Utf8
  import Wrappers

  const HttpTransport: string := "http://schemas.xmlsoap.org/soap/http"
  const Location: string := "http://localhost:1337/"

  /** The fixed service name every generated document uses. */
  const ServiceName: string := "Registros do WSDL"

  /** `urn:<namespace>.<name>`, the target namespace and each operation's namespace. */
  function Tns(namespace: string, name: string): (s: string)
    ensures |s| == 5 + |namespace| + |name|
    ensures s[..4] == "urn:" && s[4..4 + |namespace|] == namespace
    ensures s[4 + |namespace|] == '.' && s[5 + |namespace|..] == name
  {
    "urn:" + namespace + "." + name
  }

  /** `type_to_xsd`: only the string type has a schema name; every other type gets "". */
  function TypeToXsd(ty: Type): (s: string)
    ensures ty.String? <==> s != ""
    ensures ty.String? ==> s == "xsd:string"
  {
    match ty
    case String => "xsd:string"
    case _ => ""
  }

  /** The eight namespace declarations of `definitions`, `tns` bound to the target namespace. */
  function Namespaces(tns: string): seq<Attribute>
  {
    [ ("xmlns", WsdlNs),
      ("xmlns:soap", WsdlSoapNs),
      ("xmlns:xsd", XsdNs),
      ("xmlns:xsi", XsiNs),
      ("xmlns:SOAP-ENV", EnvelopeNs),
      ("xmlns:SOAP-ENC", EncodingNs),
      ("xmlns:tns", tns),
      ("targetNamespace", tns) ]
  }

  /** `types`: a schema for the target namespace importing SOAP encoding and WSDL. */
  function TypesSection(tns: string): Element
  {
    Node("types", [], [
      Node("xsd:schema", [("targetNamespace", tns)], [
        Node("xsd:import", [("namespace", EncodingNs)], []),
        Node("xsd:import", [("namespace", WsdlNs)], [])])])
  }

  /** A message `part` with its name and schema type. */
  function Part(name: string, ty: Type): Element
  {
    Node("part", [("name", name), ("type", TypeToXsd(ty))], [])
  }

  /** One `part` per declared argument, in the arguments' iteration order. */
  function ArgumentParts(args: FnArgs): (parts: seq<Element>)
    ensures |parts| == |args|
    ensures forall k {:trigger parts[k]} :: 0 <= k < |args| ==> parts[k] == Part(args[k].0, args[k].1.ty)
  {
    if args == [] then []
    else ArgumentParts(args[..|args| - 1]) + [Part(args[|args| - 1].0, args[|args| - 1].1.ty)]
  }

  /** `<name>Request`, a part per argument. */
  function RequestMessage(call: RemoteCall): Element
  {
    Node("message", [("name", call.name + "Request")], ArgumentParts(call.arguments))
  }

  /** `<name>Response`, one part named and typed as the result slot. */
  function ResponseMessage(call: RemoteCall): Element
  {
    Node("message", [("name", call.name + "Response")], [Part(call.result.name, call.result.ty)])
  }

  /** The request and the response message of each call, call after call. */
  function Messages(calls: seq<RemoteCall>): (ms: seq<Element>)
    ensures |ms| == 2 * |calls|
    ensures forall i {:trigger ms[2 * i]} {:trigger ms[2 * i + 1]} :: 0 <= i < |calls| ==>
              ms[2 * i] == RequestMessage(calls[i]) && ms[2 * i + 1] == ResponseMessage(calls[i])
  {
    if calls == [] then []
    else
      var n := |calls| - 1;
      var ms := Messages(calls[..n]) + [RequestMessage(calls[n]), ResponseMessage(calls[n])];
      assert forall i :: 0 <= i < n ==> calls[..n][i] == calls[i];
      ms
  }

  /** A `portType` operation: documentation, input and output messages. */
  function PortOperation(call: RemoteCall): Element
  {
    Node("operation", [("name", call.name)], [
      Node("documentation", [], [Text(call.doc)]),
      Node("input", [("message", "tns:" + call.name + "Request")], []),
      Node("output", [("message", "tns:" + call.name + "Response")], [])])
  }

  function PortOperations(calls: seq<RemoteCall>): (ops: seq<Element>)
    ensures |ops| == |calls|
    ensures forall i {:trigger ops[i]} :: 0 <= i < |calls| ==> ops[i] == PortOperation(calls[i])
  {
    if calls == [] then []
    else PortOperations(calls[..|calls| - 1]) + [PortOperation(calls[|calls| - 1])]
  }

  function PortType(calls: seq<RemoteCall>): Element
  {
    Node("portType", [("name", ServiceName + "PortType")], PortOperations(calls))
  }

  /** `soap:body`, encoded, in the operation's namespace. */
  function SoapBody(ns: string): Element
  {
    Node("soap:body", [("use", "encoded"), ("namespace", ns), ("encodingStyle", EncodingNs)], [])
  }

  /** A `binding` operation: rpc style, action `urn:<namespace>.<name>#<name>`. */
  function BindingOperation(namespace: string, call: RemoteCall): Element
  {
    var tns := Tns(namespace, call.name);
    Node("operation", [("name", call.name)], [
      Node("soap:operation", [("soapAction", tns + "#" + call.name), ("style", "rpc")], []),
      Node("input", [], [SoapBody(tns)]),
      Node("output", [], [SoapBody(tns)])])
  }

  function BindingOperations(namespace: string, calls: seq<RemoteCall>): (ops: seq<Element>)
    ensures |ops| == |calls|
    ensures forall i {:trigger ops[i]} :: 0 <= i < |calls| ==> ops[i] == BindingOperation(namespace, calls[i])
  {
    if calls == [] then []
    else BindingOperations(namespace, calls[..|calls| - 1]) + [BindingOperation(namespace, calls[|calls| - 1])]
  }

  /** The element that opens every `binding`: rpc style over HTTP. */
  const SoapBinding: Element :=
    Node("soap:binding", [("style", "rpc"), ("transport", HttpTransport)], [])

  function Binding(namespace: string, calls: seq<RemoteCall>): Element
  {
    Node("binding", [("name", ServiceName + "Binding"), ("type", "tns:" + ServiceName + "PortType")],
      [SoapBinding] + BindingOperations(namespace, calls))
  }

  /** `service` with one port bound to the binding, at the fixed address. */
  const ServiceElement: Element :=
    Node("service", [("name", ServiceName)], [
      Node("port", [("name", ServiceName + "Port"), ("binding", "tns:" + ServiceName + "Binding")], [
        Node("soap:address", [("location", Location)], [])])])

  /**
   * The `definitions` root for a namespace, a target namespace and the registered
   * calls: types first, then two messages per call, then portType, binding and service.
   */
  function Definitions(namespace: string, targetNamespace: string, calls: seq<RemoteCall>): (d: Element)
    ensures d.Node? && d.tag == "definitions"
    ensures d.attrs == Namespaces(Tns(namespace, targetNamespace))
    ensures |d.children| == 2 * |calls| + 4
    ensures d.children[0] == TypesSection(Tns(namespace, targetNamespace))
    ensures forall i {:trigger d.children[1 + 2 * i]} {:trigger d.children[2 + 2 * i]} :: 0 <= i < |calls| ==>
              d.children[1 + 2 * i] == RequestMessage(calls[i]) && d.children[2 + 2 * i] == ResponseMessage(calls[i])
    ensures d.children[2 * |calls| + 1] == PortType(calls)
    ensures d.children[2 * |calls| + 2] == Binding(namespace, calls)
    ensures d.children[2 * |calls| + 3] == ServiceElement
  {
    var tns := Tns(namespace, targetNamespace);
    var ms := Messages(calls);
    var children := [TypesSection(tns)] + ms + [PortType(calls), Binding(namespace, calls), ServiceElement];
    assert forall j :: 0 <= j < |ms| ==> children[1 + j] == ms[j];
    forall i | 0 <= i < |calls|
      ensures children[1 + 2 * i] == RequestMessage(calls[i]) && children[2 + 2 * i] == ResponseMessage(calls[i])
    {
      assert children[1 + 2 * i] == ms[2 * i] && children[2 + 2 * i] == ms[2 * i + 1];
    }
    Node("definitions", Namespaces(tns), children)
  }

  /** The cached bytes: the UTF-8 encoding of the document with that root. */
  function Describe(namespace: string, targetNamespace: string, calls: seq<RemoteCall>): seq<Utf8.byte>
  {
    Utf8.Encode(DocumentText("UTF-8", Definitions(namespace, targetNamespace, calls)))
  }

  /**
   * `bytes` is the description of `calls`. The equation is guarded by a trigger on
   * `Describe`, so a proof that only carries the cache along never expands the document.
   */
  ghost predicate Describes(bytes: seq<Utf8.byte>, namespace: string, targetNamespace: string, calls: seq<RemoteCall>)
  {
    forall c {:trigger Describe(namespace, targetNamespace, c)} :: c == calls ==> bytes == Describe(namespace, targetNamespace, c)
  }

  /** Index of the first call named `name` at or after `from`. */
  function FindFrom(calls: seq<RemoteCall>, name: string, from: nat): (r: Result<nat>)
    requires from <= |calls|
    ensures r.Ok? ==> from <= r.value < |calls| && calls[r.value].name == name
                      && forall j :: from <= j < r.value ==> calls[j].name != name
    ensures r.Err? ==> r.error == NotFound && forall j :: from <= j < |calls| ==> calls[j].name != name
    decreases |calls| - from
  {
    if from == |calls| then Err(NotFound)
    else if calls[from].name == name then Ok(from)
    else FindFrom(calls, name, from + 1)
  }

  /** The first registered call with this name, or `NotFound`. */
  function FindCall(calls: seq<RemoteCall>, name: string): (r: Result<nat>)
    ensures r.Ok? ==> r.value < |calls| && calls[r.value].name == name
                      && forall j :: 0 <= j < r.value ==> calls[j].name != name
    ensures r.Err? <==> forall j :: 0 <= j < |calls| ==> calls[j].name != name
    ensures r.Err? ==> r.error == NotFound
  {
    FindFrom(calls, name, 0)
  }

  /** What the generated document depends on in a call: everything but values and handler. */
  datatype CallShape = CallShape(doc: string, name: string, params: seq<(string, Type)>, resultName: string, resultType: Type)

  function Params(args: FnArgs): (ps: seq<(string, Type)>)
    ensures |ps| == |args|
    ensures forall k {:trigger ps[k]} :: 0 <= k < |args| ==> ps[k] == (args[k].0, args[k].1.ty)
  {
    if args == [] then [] else [(args[0].0, args[0].1.ty)] + Params(args[1..])
  }

  function Shape(call: RemoteCall): CallShape
  {
    CallShape(call.doc, call.name, Params(call.arguments), call.result.name, call.result.ty)
  }

  /** Two lists of calls with the same shapes, call by call. */
  predicate SameShapes(a: seq<RemoteCall>, b: seq<RemoteCall>)
  {
    |a| == |b| && forall i :: 0 <= i < |a| ==> Shape(a[i]) == Shape(b[i])
  }

  lemma ArgumentPartsByShape(a: FnArgs, b: FnArgs)
    requires Params(a) == Params(b)
    ensures ArgumentParts(a) == ArgumentParts(b)
  {
    forall k | 0 <= k < |a| ensures ArgumentParts(a)[k] == ArgumentParts(b)[k] {
      assert Params(a)[k] == Params(b)[k];
    }
  }

  /** Calls of the same shape give the same four elements. */
  lemma CallByShape(namespace: string, a: RemoteCall, b: RemoteCall)
    requires Shape(a) == Shape(b)
    ensures RequestMessage(a) == RequestMessage(b) && ResponseMessage(a) == ResponseMessage(b)
    ensures PortOperation(a) == PortOperation(b)
    ensures BindingOperation(namespace, a) == BindingOperation(namespace, b)
  {
    ArgumentPartsByShape(a.arguments, b.arguments);
  }

  lemma {:induction false} MessagesByShape(a: seq<RemoteCall>, b: seq<RemoteCall>)
    requires SameShapes(a, b)
    ensures Messages(a) == Messages(b)
    decreases |a|
  {
    if a != [] {
      var n := |a| - 1;
      assert SameShapes(a[..n], b[..n]) by {
        forall i | 0 <= i < n ensures Shape(a[..n][i]) == Shape(b[..n][i]) {
          assert a[..n][i] == a[i] && b[..n][i] == b[i];
        }
      }
      MessagesByShape(a[..n], b[..n]);
      CallByShape("", a[n], b[n]);
    }
  }

  lemma OperationsByShape(namespace: string, a: seq<RemoteCall>, b: seq<RemoteCall>)
    requires SameShapes(a, b)
    ensures PortOperations(a) == PortOperations(b)
    ensures BindingOperations(namespace, a) == BindingOperations(namespace, b)
  {
    forall i | 0 <= i < |a|
      ensures PortOperation(a[i]) == PortOperation(b[i])
      ensures BindingOperation(namespace, a[i]) == BindingOperation(namespace, b[i])
    {
      CallByShape(namespace, a[i], b[i]);
    }
  }

  /**
   * The document depends on the calls only through their shapes: argument values
   * and handlers never reach it.
   */
  lemma DefinitionsByShape(namespace: string, targetNamespace: string, a: seq<RemoteCall>, b: seq<RemoteCall>)
    requires SameShapes(a, b)
    ensures Definitions(namespace, targetNamespace, a) == Definitions(namespace, targetNamespace, b)
  {
    MessagesByShape(a, b);
    OperationsByShape(namespace, a, b);
  }

  /** Replacing one call by one of the same shape keeps the shapes of the list. */
  lemma UpdateKeepsShapes(calls: seq<RemoteCall>, i: nat, call: RemoteCall)
    requires i < |calls| && Shape(call) == Shape(calls[i])
    ensures SameShapes(calls, calls[i := call])
  {
  }

  /** Calls of the same shapes are described by the same bytes: rebinding never invalidates the cache. */
  lemma DescribeByShape(namespace: string, targetNamespace: string, a: seq<RemoteCall>, b: seq<RemoteCall>)
    requires SameShapes(a, b)
    ensures Describe(namespace, targetNamespace, a) == Describe(namespace, targetNamespace, b)
  {
    DefinitionsByShape(namespace, targetNamespace, a, b);
  }

  /** The served bytes decode back, as UTF-8, to exactly the document text. */
  lemma DescribeDecodes(namespace: string, targetNamespace: string, calls: seq<RemoteCall>)
    ensures Utf8.Decode(Describe(namespace, targetNamespace, calls))
         == Wrappers.Some(DocumentText("UTF-8", Definitions(namespace, targetNamespace, calls)))
  {
    Utf8.DecodeEncode(DocumentText("UTF-8", Definitions(namespace, targetNamespace, calls)));
  }

  /**
   * Adding a call keeps the earlier calls' messages where they were and puts the new
   * call's two messages right after them.
   */
  lemma AddedCallMessages(namespace: string, targetNamespace: string, calls: seq<RemoteCall>, call: RemoteCall)
    ensures var d := Definitions(namespace, targetNamespace, calls + [call]);
            && d.children[1 + 2 * |calls|] == RequestMessage(call)
            && d.children[2 + 2 * |calls|] == ResponseMessage(call)
            && d.children[..1 + 2 * |calls|] == Definitions(namespace, targetNamespace, calls).children[..1 + 2 * |calls|]
  {
    var d := Definitions(namespace, targetNamespace, calls + [call]);
    var e := Definitions(namespace, targetNamespace, calls);
    assert (calls + [call])[|calls|] == call;
    forall j | 0 <= j < 1 + 2 * |calls| ensures d.children[j] == e.children[j] {
      if j > 0 {
        var i := (j - 1) / 2;
        assert (calls + [call])[i] == calls[i];
        if (j - 1) % 2 == 0 {
          assert j == 1 + 2 * i;
        } else {
          assert j == 2 + 2 * i;
        }
      }
    }
  }

  /**
   * `Wsdl`: the namespaces, the registered calls and the cached document bytes,
   * valid whenever no change is pending.
   */
  class Wsdl {
    const namespace: string
    const targetNamespace: string
    var calls: seq<RemoteCall>
    var bytes: seq<Utf8.byte>
    var changed: bool
    /** The calls the cached bytes were generated from. */
    ghost var described: seq<RemoteCall>

    /**
     * The cache is current unless a change is pending: it was generated from calls
     * of the same shapes as the current ones, so it describes them (`CacheDescribes`).
     */
    ghost predicate Valid()
      reads this
    {
      !changed ==> Describes(bytes, namespace, targetNamespace, described) && SameShapes(described, calls)
    }

    /** A valid cache holds the description of the current calls. */
    lemma CacheDescribes()
      requires Valid() && !changed
      ensures bytes == Describe(namespace, targetNamespace, calls)
    {
      DescribeByShape(namespace, targetNamespace, described, calls);
    }

    /** `Wsdl::new`: no calls, an empty cache and a pending change. */
    constructor (namespace: string, targetNamespace: string)
      ensures Valid()
      ensures this.namespace == namespace && this.targetNamespace == targetNamespace
      ensures calls == [] && bytes == [] && changed
    {
      this.namespace := namespace;
      this.targetNamespace := targetNamespace;
      calls := [];
      bytes := [];
      changed := true;
      described := [];
    }

    /** `Wsdl::add`: appends the call and marks the cache stale. */
    method Add(call: RemoteCall)
      requires Valid()
      modifies this
      ensures Valid()
      ensures calls == old(calls) + [call] && changed && bytes == old(bytes)
    {
      calls := calls + [call];
      changed := true;
    }

    /** `Wsdl::get_callback_mut`: the index of the first call with that name, or `NotFound`. */
    method GetCallbackMut(name: string) returns (r: Result<nat>)
      ensures r == FindCall(calls, name)
    {
      var i := 0;
      while i < |calls|
        invariant i <= |calls|
        invariant FindFrom(calls, name, i) == FindCall(calls, name)
      {
        if name == calls[i].name {
          return Ok(i);
        }
        i := i + 1;
      }
      return Err(NotFound);
    }

    /**
     * A write through the call `get_callback_mut` lends out: the call at `i` is
     * replaced by one of the same shape, so the cached description stays valid.
     */
    method UpdateCall(i: nat, call: RemoteCall)
      requires Valid() && i < |calls| && Shape(call) == Shape(calls[i])
      modifies this
      ensures Valid()
      ensures calls == old(calls)[i := call] && bytes == old(bytes) && changed == old(changed)
    {
      UpdateKeepsShapes(calls, i, call);
      calls := calls[i := call];
    }

    /**
     * `Wsdl::as_bytes`: rebuilds the document when a change is pending, then returns
     * the cached bytes, which always describe the current calls.
     */
    method AsBytes() returns (b: seq<Utf8.byte>)
      requires Valid()
      modifies this
      ensures Valid() && !changed && calls == old(calls)
      ensures b == bytes && b == Describe(namespace, targetNamespace, calls)
      ensures !old(changed) ==> bytes == old(bytes)
    {
      if changed {
        bytes := Generate(namespace, targetNamespace, calls);
        changed := false;
        described := calls;
      } else {
        CacheDescribes();
      }
      b := bytes;
    }
  }

  /** The rebuild branch of `as_bytes`: the document for the calls, rendered and encoded. */
  method Generate(namespace: string, targetNamespace: string, calls: seq<RemoteCall>) returns (bytes: seq<Utf8.byte>)
    ensures bytes == Describe(namespace, targetNamespace, calls)
  {
    var document := new Document("UTF-8");
    var tns := "urn:" + namespace + "." + targetNamespace;
    var messages := BuildMessages(calls);
    var operations := BuildPortOperations(calls);
    var bindings := BuildBindingOperations(namespace, calls);
    var portType := Node("portType", [("name", ServiceName + "PortType")], operations);
    var binding := Node("binding", [("name", ServiceName + "Binding"), ("type", "tns:" + ServiceName + "PortType")],
                         [SoapBinding] + bindings);
    var children := [TypesSection(tns)] + messages + [portType, binding, ServiceElement];
    var definitions := Node("definitions", Namespaces(tns), children);
    assert definitions == Definitions(namespace, targetNamespace, calls);
    document.SetRoot(definitions);
    var text := document.ToString();
    bytes := Utf8.Encode(text);
  }

  /** The loop of `as_bytes` over the calls that emits two messages per call. */
  method BuildMessages(calls: seq<RemoteCall>) returns (children: seq<Element>)
    ensures children == Messages(calls)
  {
    children := [];
    for i := 0 to |calls|
      invariant children == Messages(calls[..i])
    {
      var call := calls[i];
      var parts := BuildParts(call.arguments);
      assert calls[..i + 1][..i] == calls[..i];
      children := children + [Node("message", [("name", call.name + "Request")], parts)];
      children := children + [Node("message", [("name", call.name + "Response")],
                                [Node("part", [("name", call.result.name), ("type", TypeToXsd(call.result.ty))], [])])];
    }
    assert calls[..|calls|] == calls;
  }

  /** The inner loop of `as_bytes`: one part per argument. */
  method BuildParts(args: FnArgs) returns (parts: seq<Element>)
    ensures parts == ArgumentParts(args)
  {
    parts := [];
    for k := 0 to |args|
      invariant parts == ArgumentParts(args[..k])
    {
      assert args[..k + 1][..k] == args[..k];
      var (argName, arg) := args[k];
      parts := parts + [Node("part", [("name", argName), ("type", TypeToXsd(arg.ty))], [])];
    }
    assert args[..|args|] == args;
  }

  /** The loop of `as_bytes` that emits the `portType` operations. */
  method BuildPortOperations(calls: seq<RemoteCall>) returns (operations: seq<Element>)
    ensures operations == PortOperations(calls)
  {
    operations := [];
    for i := 0 to |calls|
      invariant operations == PortOperations(calls[..i])
    {
      assert calls[..i + 1][..i] == calls[..i];
      var call := calls[i];
      operations := operations + [Node("operation", [("name", call.name)], [
        Node("documentation", [], [Text(call.doc)]),
        Node("input", [("message", "tns:" + call.name + "Request")], []),
        Node("output", [("message", "tns:" + call.name + "Response")], [])])];
    }
    assert calls[..|calls|] == calls;
  }

  /** The loop of `as_bytes` that emits the `binding` operations. */
  method BuildBindingOperations(namespace: string, calls: seq<RemoteCall>) returns (operations: seq<Element>)
    ensures operations == BindingOperations(namespace, calls)
  {
    operations := [];
    for i := 0 to |calls|
      invariant operations == BindingOperations(namespace, calls[..i])
    {
      assert calls[..i + 1][..i] == calls[..i];
      var opTns := "urn:" + namespace + "." + calls[i].name;
      var anchor := opTns + "#" + calls[i].name;
      operations := operations + [Node("operation", [("name", calls[i].name)], [
        Node("soap:operation", [("soapAction", anchor), ("style", "rpc")], []),
        Node("input", [], [SoapBody(opTns)]),
        Node("output", [], [SoapBody(opTns)])])];
    }
    assert calls[..|calls|] == calls;
  }
}
