/**
 * The protocol side of src/soap/server.rs: the hand-concatenated response envelope
 * (`soap_response`) and the `/` and `/?wsdl` route handlers, which read the request
 * envelope, bind the arguments of each known call, run its handler and collect the
 * results, or serve the cached description.
 */
module SoapServer {
  import opened Errors
  import opened Types
  import opened XmlElement
  import opened XmlDocument
  import opened Wsdl
  import opened Uris
  import Reader
  import SeqAlgebra
  import Utf8
  import Wrappers

  // ---------------------------------------------------------------------------
  // The response envelope

  // The pieces `soap_response` pushes before the first result, in order.
  const HeadDeclaration: string := "<?xml version=\"1.0\" encoding=\"UTF-8\"?>"
  const HeadEnvelope: string := "<SOAP-ENV:Envelope "
  const HeadXsd: string := "xmlns:xsd=\"" + XsdNs + "\" "
  const HeadXsi: string := "xmlns:xsi=\"" + XsiNs + "\" "
  const HeadEnvelopeNs: string := "xmlns:SOAP-ENV=\"" + EnvelopeNs + "\">"
  const HeadBody: string := "<SOAP-ENV:Body>"

  /** The declaration, the Envelope open tag with its three namespaces, and `<SOAP-ENV:Body>`. */
  const ResponseHead: string :=
    HeadDeclaration + HeadEnvelope + HeadXsd + HeadXsi + HeadEnvelopeNs + HeadBody

  const ResponseTail: string := "</SOAP-ENV:Body>" + "</SOAP-ENV:Envelope>"

  /** ` xsi:type="xsd:string"`, the attribute every result carries. */
  const TypeAttr: string := " " + "xsi:type" + "=\"" + "xsd:string" + "\""

  /** `<return xsi:type="xsd:string">` */
  const ReturnOpen: string := "<" + "return" + TypeAttr + ">"

  /** `</return>` */
  const ReturnClose: string := "</" + "return" + ">"

  /** `<result xsi:type="xsd:string"/>` */
  const ResultEmpty: string := "<" + "result" + TypeAttr + "/>"

  /** A string result becomes `return` with its text; anything else an empty `result`. */
  function ReturnText(vl: Value): string
  {
    match vl
    case String(s) => ReturnOpen + s + ReturnClose
    case _ => ResultEmpty
  }

  function EntryOpen(name: string): string
  {
    "<ns1:" + name + "Response>"
  }

  function EntryClose(name: string): string
  {
    "</ns1:" + name + "Response>"
  }

  /** One entry: the result wrapped in `<ns1:<name>Response>`. */
  function EntryText(name: string, d: Data): string
  {
    EntryOpen(name) + ReturnText(d.vl) + EntryClose(name)
  }

  function EntriesText(responses: seq<(string, Data)>): string
  {
    if responses == [] then ""
    else
      var n := |responses| - 1;
      EntriesText(responses[..n]) + EntryText(responses[n].0, responses[n].1)
  }

  /** The text `soap_response` returns: head, one entry per result in order, tail. */
  function SoapResponseText(responses: seq<(string, Data)>): string
  {
    ResponseHead + EntriesText(responses) + ResponseTail
  }

  /** The pushes `soap_response` makes for one result. */
  method PushEntry(prefix: string, name: string, res: Data) returns (result: string)
    ensures result == prefix + EntryText(name, res)
  {
    result := prefix + "<ns1:";
    result := result + name;
    result := result + "Response>";
    SeqAlgebra.Regroup3(prefix, "<ns1:", name, "Response>");
    ghost var r1 := result;
    match res.vl {
      case String(s) =>
        result := result + ReturnOpen;
        result := result + s;
        result := result + ReturnClose;
        SeqAlgebra.Regroup3(r1, ReturnOpen, s, ReturnClose);
      case _ =>
        result := result + ResultEmpty;
    }
    ghost var r2 := result;
    result := result + "</ns1:";
    result := result + name;
    result := result + "Response>";
    SeqAlgebra.Regroup3(r2, "</ns1:", name, "Response>");
    SeqAlgebra.Regroup3(prefix, EntryOpen(name), ReturnText(res.vl), EntryClose(name));
  }

  /** `soap_response`: appends the head, each entry and the tail to a growing string. */
  method SoapResponse(responses: seq<(string, Data)>) returns (result: string)
    ensures result == SoapResponseText(responses)
  {
    result := HeadDeclaration;
    result := result + HeadEnvelope;
    result := result + HeadXsd;
    result := result + HeadXsi;
    result := result + HeadEnvelopeNs;
    result := result + HeadBody;
    assert result == ResponseHead;
    for i := 0 to |responses|
      invariant result == ResponseHead + EntriesText(responses[..i])
    {
      assert responses[..i + 1][..i] == responses[..i];
      var (name, res) := responses[i];
      ghost var entries := EntriesText(responses[..i]);
      assert EntriesText(responses[..i + 1]) == entries + EntryText(name, res);
      result := PushEntry(result, name, res);
      SeqAlgebra.ConcatAssoc(ResponseHead, entries, EntryText(name, res));
    }
    assert responses[..|responses|] == responses;
    result := result + "</SOAP-ENV:Body>";
    result := result + "</SOAP-ENV:Envelope>";
    SeqAlgebra.ConcatAssoc(ResponseHead + EntriesText(responses), "</SOAP-ENV:Body>", "</SOAP-ENV:Envelope>");
    assert ResponseTail == "</SOAP-ENV:Body>" + "</SOAP-ENV:Envelope>";
  }

  /** The entries of a concatenation are the concatenated entries: order is kept. */
  lemma {:induction false} EntriesAppend(a: seq<(string, Data)>, b: seq<(string, Data)>)
    ensures EntriesText(a + b) == EntriesText(a) + EntriesText(b)
    decreases |b|
  {
    if b == [] {
      assert a + b == a;
    } else {
      var n := |b| - 1;
      assert (a + b)[..|a + b| - 1] == a + b[..n];
      EntriesAppend(a, b[..n]);
      var e := EntryText(b[n].0, b[n].1);
      assert EntriesText(a + b) == EntriesText(a + b[..n]) + e;
      assert EntriesText(b) == EntriesText(b[..n]) + e;
      SeqAlgebra.ConcatAssoc(EntriesText(a), EntriesText(b[..n]), e);
    }
  }

  // The same envelope as an element tree.

  function ReturnElement(vl: Value): Element
  {
    match vl
    case String(s) => Node("return", [("xsi:type", "xsd:string")], [Text(s)])
    case _ => Node("result", [("xsi:type", "xsd:string")], [])
  }

  function EntryElement(name: string, d: Data): Element
  {
    Node("ns1:" + name + "Response", [], [ReturnElement(d.vl)])
  }

  function EntryElements(responses: seq<(string, Data)>): (es: seq<Element>)
    ensures |es| == |responses|
  {
    if responses == [] then []
    else
      var n := |responses| - 1;
      EntryElements(responses[..n]) + [EntryElement(responses[n].0, responses[n].1)]
  }

  function BodyElement(responses: seq<(string, Data)>): Element
  {
    Node("SOAP-ENV:Body", [], EntryElements(responses))
  }

  function ResponseTree(responses: seq<(string, Data)>): Element
  {
    Node("SOAP-ENV:Envelope", EnvelopeAttrs, [BodyElement(responses)])
  }

  const EnvelopeOpen: string := "<" + "SOAP-ENV:Envelope" + RenderAttrs(EnvelopeAttrs) + ">"
  const EnvelopeClose: string := "</" + "SOAP-ENV:Envelope" + ">"
  const BodyOpen: string := "<" + "SOAP-ENV:Body" + RenderAttrs([]) + ">"
  const BodyClose: string := "</" + "SOAP-ENV:Body" + ">"

  lemma DeclarationPiece()
    ensures HeadDeclaration == Declaration("UTF-8")
  {
  }

  lemma EnvelopePieces()
    ensures HeadEnvelope == "<" + "SOAP-ENV:Envelope" + " "
    ensures "</SOAP-ENV:Envelope>" == EnvelopeClose
  {
  }

  lemma BodyPieces()
    ensures HeadBody == BodyOpen
    ensures "</SOAP-ENV:Body>" == BodyClose
  {
  }

  /** One namespace piece of the head is the attribute as `RenderAttr` writes it, less its leading space. */
  lemma NamespacePiece(k: string, v: string, end: string)
    ensures k + "=\"" + v + "\"" + end == (k + "=\"") + v + ("\"" + end)
  {
  }

  lemma NamespacePieces()
    ensures HeadXsd == "xmlns:xsd" + "=\"" + XsdNs + "\"" + " "
    ensures HeadXsi == "xmlns:xsi" + "=\"" + XsiNs + "\"" + " "
    ensures HeadEnvelopeNs == "xmlns:SOAP-ENV" + "=\"" + EnvelopeNs + "\"" + ">"
  {
    NamespacePiece("xmlns:xsd", XsdNs, " ");
    NamespacePiece("xmlns:xsi", XsiNs, " ");
    NamespacePiece("xmlns:SOAP-ENV", EnvelopeNs, ">");
    assert "xmlns:xsd=\"" == "xmlns:xsd" + "=\"";
    assert "xmlns:xsi=\"" == "xmlns:xsi" + "=\"";
    assert "xmlns:SOAP-ENV=\"" == "xmlns:SOAP-ENV" + "=\"";
    assert "\" " == "\"" + " ";
    assert "\">" == "\"" + ">";
  }

  lemma RenderEnvelopeAttrs()
    ensures RenderAttrs(EnvelopeAttrs)
         == RenderAttr(("xmlns:xsd", XsdNs)) + RenderAttr(("xmlns:xsi", XsiNs)) + RenderAttr(("xmlns:SOAP-ENV", EnvelopeNs))
  {
    var a := EnvelopeAttrs;
    assert a[..2][..1][..0] == [];
    assert RenderAttrs(a[..2][..1]) == RenderAttr(a[0]);
    assert RenderAttrs(a[..2]) == RenderAttr(a[0]) + RenderAttr(a[1]);
  }

  /** Regrouping the head of the envelope: pure string algebra. */
  lemma HeadRegroup(d: string, env: string, bo: string, k1: string, v1: string, k2: string, v2: string, k3: string, v3: string)
    ensures d + ("<" + env + " ") + (k1 + "=\"" + v1 + "\"" + " ") + (k2 + "=\"" + v2 + "\"" + " ")
              + (k3 + "=\"" + v3 + "\"" + ">") + bo
         == d + ("<" + env + (RenderAttr((k1, v1)) + RenderAttr((k2, v2)) + RenderAttr((k3, v3))) + ">") + bo
  {
  }

  /** The hand-written head is the declaration, the Envelope open tag and the Body open tag. */
  lemma ResponseHeadIsOpenTags()
    ensures ResponseHead == Declaration("UTF-8") + EnvelopeOpen + BodyOpen
  {
    DeclarationPiece();
    EnvelopePieces();
    BodyPieces();
    NamespacePieces();
    RenderEnvelopeAttrs();
    HeadRegroup(Declaration("UTF-8"), "SOAP-ENV:Envelope", BodyOpen,
      "xmlns:xsd", XsdNs, "xmlns:xsi", XsiNs, "xmlns:SOAP-ENV", EnvelopeNs);
  }

  lemma ResponseTailIsCloseTags()
    ensures ResponseTail == BodyClose + EnvelopeClose
  {
    EnvelopePieces();
    BodyPieces();
  }

  lemma RenderReturn(vl: Value)
    ensures Render(ReturnElement(vl)) == ReturnText(vl)
  {
    var attrs := [("xsi:type", "xsd:string")];
    assert attrs[..0] == [];
    assert RenderAttrs(attrs) == TypeAttr;
    match vl {
      case String(s) =>
        assert [Text(s)][..0] == [];
        assert RenderAll([Text(s)]) == s;
        RenderNodeParts("return", attrs, [Text(s)]);
      case _ =>
    }
  }

  lemma RenderEntry(name: string, d: Data)
    ensures Render(EntryElement(name, d)) == EntryText(name, d)
  {
    RenderReturn(d.vl);
    var tag := "ns1:" + name + "Response";
    assert [ReturnElement(d.vl)][..0] == [];
    assert RenderAll([ReturnElement(d.vl)]) == ReturnText(d.vl);
    RenderNodeParts(tag, [], [ReturnElement(d.vl)]);
    assert "<" + tag + RenderAttrs([]) + ">" == EntryOpen(name);
    assert "</" + tag + ">" == EntryClose(name);
  }

  lemma {:induction false} RenderEntries(responses: seq<(string, Data)>)
    ensures RenderAll(EntryElements(responses)) == EntriesText(responses)
    decreases |responses|
  {
    if responses != [] {
      var n := |responses| - 1;
      var es := EntryElements(responses);
      assert es[..|es| - 1] == EntryElements(responses[..n]);
      RenderEntries(responses[..n]);
      RenderEntry(responses[n].0, responses[n].1);
    }
  }

  lemma DocumentRegroup(d: string, eo: string, bo: string, e: string, bc: string, ec: string)
    ensures d + eo + bo + e + (bc + ec) == d + (eo + (bo + e + bc) + ec)
  {
  }

  /**
   * With at least one result, the concatenated text is exactly the document that the
   * element tree `ResponseTree` renders to under a UTF-8 declaration.
   */
  lemma SoapResponseIsDocument(responses: seq<(string, Data)>)
    requires responses != []
    ensures SoapResponseText(responses) == DocumentText("UTF-8", ResponseTree(responses))
  {
    ResponseHeadIsOpenTags();
    ResponseTailIsCloseTags();
    RenderEntries(responses);
    var body := BodyElement(responses);
    RenderNodeParts("SOAP-ENV:Body", [], EntryElements(responses));
    assert Render(body) == BodyOpen + EntriesText(responses) + BodyClose;
    assert [body][..0] == [];
    assert RenderAll([body]) == Render(body);
    RenderNodeParts("SOAP-ENV:Envelope", EnvelopeAttrs, [body]);
    assert Render(ResponseTree(responses)) == EnvelopeOpen + Render(body) + EnvelopeClose;
    DocumentRegroup(Declaration("UTF-8"), EnvelopeOpen, BodyOpen, EntriesText(responses), BodyClose, EnvelopeClose);
  }

  /**
   * With no result the Body is written as an open and a close tag, so the text is
   * not what the tree renders (the tree's childless Body self-closes).
   */
  lemma EmptySoapResponse()
    ensures SoapResponseText([]) == ResponseHead + ResponseTail
    ensures SoapResponseText([]) != DocumentText("UTF-8", ResponseTree([]))
  {
    ResponseHeadIsOpenTags();
    ResponseTailIsCloseTags();
    var body := BodyElement([]);
    assert |Render(body)| == 16;
    assert [body][..0] == [];
    RenderNodeParts("SOAP-ENV:Envelope", EnvelopeAttrs, [body]);
    var text := DocumentText("UTF-8", ResponseTree([]));
    assert |text| == |Declaration("UTF-8")| + |EnvelopeOpen| + 16 + |EnvelopeClose|;
    assert |BodyOpen| == 15 && |BodyClose| == 16;
    assert |SoapResponseText([])| == |Declaration("UTF-8")| + |EnvelopeOpen| + 15 + 16 + |EnvelopeClose|;
  }

  // ---------------------------------------------------------------------------
  // The `/` route: binding and dispatch

  /** Every declared argument of `call` is present among the request's arguments. */
  predicate Covers(call: RemoteCall, values: map<string, string>)
  {
    forall k :: 0 <= k < |call.arguments| ==> call.arguments[k].0 in values
  }

  /**
   * The loop over the call's arguments: each slot takes the request's text for its
   * name through `set_value`, in place; names and types do not change.
   */
  function BindArguments(args: FnArgs, values: map<string, string>): (r: FnArgs)
    requires forall k :: 0 <= k < |args| ==> args[k].0 in values
    ensures |r| == |args|
    ensures forall k :: 0 <= k < |args| ==> r[k].0 == args[k].0 && r[k].1 == args[k].1.SetValue(values[args[k].0])
  {
    if args == [] then []
    else [(args[0].0, args[0].1.SetValue(values[args[0].0]))] + BindArguments(args[1..], values)
  }

  /** Binding keeps every slot's name and type, so the call's shape. */
  lemma BindKeepsParams(args: FnArgs, values: map<string, string>)
    requires forall k :: 0 <= k < |args| ==> args[k].0 in values
    ensures Params(BindArguments(args, values)) == Params(args)
  {
    var r := BindArguments(args, values);
    assert forall k :: 0 <= k < |args| ==> Params(r)[k] == Params(args)[k];
  }

  /** Each string slot holds the request's text; any other slot holds `Null`. */
  lemma BoundValues(args: FnArgs, values: map<string, string>, k: nat)
    requires forall j :: 0 <= j < |args| ==> args[j].0 in values
    requires k < |args|
    ensures var slot := BindArguments(args, values)[k].1;
            && (args[k].1.ty.String? ==> slot.vl == Value.String(values[args[k].0]))
            && (!args[k].1.ty.String? ==> slot.vl.Null?)
  {
  }

  /** A second binding overrides the first entirely: earlier requests leave no trace. */
  lemma RebindForgets(args: FnArgs, first: map<string, string>, second: map<string, string>)
    requires forall k :: 0 <= k < |args| ==> args[k].0 in first && args[k].0 in second
    ensures BindArguments(BindArguments(args, first), second) == BindArguments(args, second)
  {
    var a := BindArguments(BindArguments(args, first), second);
    var b := BindArguments(args, second);
    forall k | 0 <= k < |args| ensures a[k] == b[k] {
      SetValueLastWins(args[k].1, first[args[k].0], second[args[k].0]);
    }
  }

  /** The call with its arguments bound to the request's values. */
  function Bound(call: RemoteCall, values: map<string, string>): (c: RemoteCall)
    requires Covers(call, values)
    ensures Shape(c) == Shape(call)
  {
    BindKeepsParams(call.arguments, values);
    call.(arguments := BindArguments(call.arguments, values))
  }

  /** A request naming a registered call supplies all of that call's arguments. */
  predicate Answerable(calls: seq<RemoteCall>, request: Reader.Request)
  {
    var found := FindCall(calls, request.methodName);
    found.Ok? ==> Covers(calls[found.value], request.arguments)
  }

  /** Every request is answerable. */
  predicate Bindable(calls: seq<RemoteCall>, requests: seq<Reader.Request>)
  {
    forall j {:trigger Answerable(calls, requests[j])} :: 0 <= j < |requests| ==> Answerable(calls, requests[j])
  }

  /** Lookup sees only names, so calls of the same shapes resolve alike. */
  lemma FindCallByShape(a: seq<RemoteCall>, b: seq<RemoteCall>, name: string)
    requires SameShapes(a, b)
    ensures FindCall(a, name) == FindCall(b, name)
  {
    assert forall i :: 0 <= i < |a| ==> a[i].name == Shape(a[i]).name == Shape(b[i]).name == b[i].name;
  }

  lemma AnswerableByShape(a: seq<RemoteCall>, b: seq<RemoteCall>, request: Reader.Request)
    requires SameShapes(a, b) && Answerable(a, request)
    ensures Answerable(b, request)
  {
    FindCallByShape(a, b, request.methodName);
    var found := FindCall(a, request.methodName);
    if found.Ok? {
      var i := found.value;
      assert Params(a[i].arguments) == Params(b[i].arguments);
      forall k | 0 <= k < |b[i].arguments| ensures b[i].arguments[k].0 in request.arguments {
        assert Params(a[i].arguments)[k] == Params(b[i].arguments)[k];
      }
    }
  }

  lemma BindableByShape(a: seq<RemoteCall>, b: seq<RemoteCall>, requests: seq<Reader.Request>)
    requires SameShapes(a, b) && Bindable(a, requests)
    ensures Bindable(b, requests)
  {
    forall j | 0 <= j < |requests| ensures Answerable(b, requests[j]) {
      AnswerableByShape(a, b, requests[j]);
    }
  }

  lemma BindableTail(calls: seq<RemoteCall>, requests: seq<Reader.Request>)
    requires requests != [] && Bindable(calls, requests)
    ensures Answerable(calls, requests[0])
    ensures Bindable(calls, requests[1..])
  {
    forall j | 0 <= j < |requests[1..]| ensures Answerable(calls, requests[1..][j]) {
      assert requests[1..][j] == requests[j + 1];
    }
  }

  lemma SameShapesTrans(a: seq<RemoteCall>, b: seq<RemoteCall>, c: seq<RemoteCall>)
    requires SameShapes(a, b) && SameShapes(b, c)
    ensures SameShapes(a, c)
  {
  }

  /**
   * One request of the `/` route: an unknown operation changes nothing and answers
   * nothing; a registered call gets its slots rebound in place and answers with its
   * name and its handler's result on the bound arguments.
   */
  function Step(calls: seq<RemoteCall>, request: Reader.Request): (r: (seq<RemoteCall>, seq<(string, Data)>))
    requires Answerable(calls, request)
    ensures SameShapes(calls, r.0)
    ensures FindCall(calls, request.methodName).Err? <==> r.1 == []
    ensures |r.1| <= 1
    ensures FindCall(calls, request.methodName).Err? ==> r == (calls, [])
    ensures FindCall(calls, request.methodName).Ok? ==>
              var i := FindCall(calls, request.methodName).value;
              && |r.0| == |calls|
              && r.0[i] == Bound(calls[i], request.arguments)
              && (forall j {:trigger r.0[j]} :: 0 <= j < |calls| && j != i ==> r.0[j] == calls[j])
              && r.1 == [(request.methodName, r.0[i].body(BindArguments(calls[i].arguments, request.arguments)))]
  {
    match FindCall(calls, request.methodName)
    case Err(_) => (calls, [])
    case Ok(i) =>
      var call := Bound(calls[i], request.arguments);
      UpdateKeepsShapes(calls, i, call);
      (calls[i := call], [(call.name, call.body(call.arguments))])
  }

  /**
   * The `/` route on a list of requests: the calls after the argument slots have been
   * rebound, and the (call name, handler result) pairs in request order.
   */
  function Serve(calls: seq<RemoteCall>, requests: seq<Reader.Request>): (r: (seq<RemoteCall>, seq<(string, Data)>))
    requires Bindable(calls, requests)
    ensures SameShapes(calls, r.0)
    ensures |r.1| <= |requests|
    decreases |requests|
  {
    if requests == [] then (calls, [])
    else
      BindableTail(calls, requests);
      var step := Step(calls, requests[0]);
      BindableByShape(calls, step.0, requests[1..]);
      var rest := Serve(step.0, requests[1..]);
      SameShapesTrans(calls, step.0, rest.0);
      (rest.0, step.1 + rest.1)
  }

  /** Serving a non-empty list is one step followed by serving the rest from the new calls. */
  lemma ServeUnfold(calls: seq<RemoteCall>, requests: seq<Reader.Request>)
    requires requests != [] && Bindable(calls, requests)
    ensures Answerable(calls, requests[0])
    ensures Bindable(Step(calls, requests[0]).0, requests[1..])
    ensures var step := Step(calls, requests[0]);
            var rest := Serve(step.0, requests[1..]);
            Serve(calls, requests) == (rest.0, step.1 + rest.1)
  {
    BindableTail(calls, requests);
    BindableByShape(calls, Step(calls, requests[0]).0, requests[1..]);
  }

  /** Requests for unknown operations contribute no entry and change no call. */
  lemma UnknownRequestSkipped(calls: seq<RemoteCall>, request: Reader.Request, rest: seq<Reader.Request>)
    requires FindCall(calls, request.methodName).Err?
    requires Bindable(calls, rest)
    ensures Bindable(calls, [request] + rest)
    ensures Serve(calls, [request] + rest) == Serve(calls, rest)
  {
    var requests := [request] + rest;
    assert requests[1..] == rest;
    forall j | 0 <= j < |requests| ensures Answerable(calls, requests[j]) {
      if j > 0 { assert requests[j] == rest[j - 1]; }
    }
    ServeUnfold(calls, requests);
    assert Step(calls, request) == (calls, []);
    assert [] + Serve(calls, rest).1 == Serve(calls, rest).1;
  }

  /**
   * One request for a registered call: the entry is the call's name with its handler
   * applied to the request's argument values, whatever earlier requests bound.
   */
  lemma KnownRequestAnswered(calls: seq<RemoteCall>, request: Reader.Request)
    requires FindCall(calls, request.methodName).Ok?
    requires Covers(calls[FindCall(calls, request.methodName).value], request.arguments)
    ensures Bindable(calls, [request])
    ensures var i := FindCall(calls, request.methodName).value;
            Serve(calls, [request]).1
              == [(request.methodName, calls[i].body(BindArguments(calls[i].arguments, request.arguments)))]
  {
    var requests := [request];
    assert requests[0] == request;
    assert Bindable(calls, requests);
    assert requests[1..] == [];
    ServeUnfold(calls, requests);
    var step := Step(calls, request);
    assert Serve(step.0, []).1 == [];
  }

  /** The number of entries is the number of requests naming a registered call. */
  function Known(calls: seq<RemoteCall>, requests: seq<Reader.Request>): nat
  {
    if requests == [] then 0
    else (if FindCall(calls, requests[0].methodName).Ok? then 1 else 0) + Known(calls, requests[1..])
  }

  lemma {:induction false} KnownByShape(a: seq<RemoteCall>, b: seq<RemoteCall>, requests: seq<Reader.Request>)
    requires SameShapes(a, b)
    ensures Known(a, requests) == Known(b, requests)
    decreases |requests|
  {
    if requests != [] {
      FindCallByShape(a, b, requests[0].methodName);
      KnownByShape(a, b, requests[1..]);
    }
  }

  lemma {:induction false} ServeCountsKnown(calls: seq<RemoteCall>, requests: seq<Reader.Request>)
    requires Bindable(calls, requests)
    ensures |Serve(calls, requests).1| == Known(calls, requests)
    decreases |requests|
  {
    if requests != [] {
      ServeUnfold(calls, requests);
      var step := Step(calls, requests[0]);
      ServeCountsKnown(step.0, requests[1..]);
      KnownByShape(calls, step.0, requests[1..]);
    }
  }

  /** The argument loop of the `/` route, over the found call's slots. */
  method BindCall(args: FnArgs, values: map<string, string>) returns (bound: FnArgs)
    requires forall k :: 0 <= k < |args| ==> args[k].0 in values
    ensures bound == BindArguments(args, values)
  {
    bound := [];
    for k := 0 to |args|
      invariant |bound| == k
      invariant forall m :: 0 <= m < k ==> bound[m] == (args[m].0, args[m].1.SetValue(values[args[m].0]))
    {
      var (name, arg) := args[k];
      var reqArg := values[name];
      bound := bound + [(name, arg.SetValue(reqArg))];
    }
  }

  /**
   * The body of the `/` route's loop for one request: the call found by name has its
   * slots rebound in the registry itself, and its result is the entry. The cached
   * description is left as it is, and stays valid.
   */
  method Answer(wsdl: Wsdl, request: Reader.Request) returns (entry: seq<(string, Data)>)
    requires wsdl.Valid() && Answerable(wsdl.calls, request)
    modifies wsdl
    ensures wsdl.Valid()
    ensures wsdl.bytes == old(wsdl.bytes) && wsdl.changed == old(wsdl.changed)
    ensures wsdl.calls == Step(old(wsdl.calls), request).0
    ensures entry == Step(old(wsdl.calls), request).1
  {
    var callback := wsdl.GetCallbackMut(request.methodName);
    match callback {
      case Ok(i) =>
        var call := wsdl.calls[i];
        var bound := BindCall(call.arguments, request.arguments);
        var updated := call.(arguments := bound);
        StepFound(wsdl.calls, request, i, updated);
        wsdl.UpdateCall(i, updated);
        var result := updated.Call();
        entry := [(updated.name, result.value)];
      case Err(_) =>
        entry := [];
    }
  }

  /** `Step` on a found call, in the terms `Answer` computes it in. */
  lemma StepFound(calls: seq<RemoteCall>, request: Reader.Request, i: nat, updated: RemoteCall)
    requires Answerable(calls, request) && FindCall(calls, request.methodName) == Ok(i)
    requires updated == calls[i].(arguments := BindArguments(calls[i].arguments, request.arguments))
    ensures i < |calls| && Shape(updated) == Shape(calls[i])
    ensures Step(calls, request) == (calls[i := updated], [(updated.name, updated.body(updated.arguments))])
  {
    assert updated == Bound(calls[i], request.arguments);
    UpdateKeepsShapes(calls, i, updated);
  }

  /** One turn of the `/` route's loop: the first request's step, then the rest. */
  lemma ServeAdvance(calls: seq<RemoteCall>, rest: seq<Reader.Request>, res: seq<(string, Data)>, final: seq<(string, Data)>)
    requires rest != [] && Bindable(calls, rest)
    requires res + Serve(calls, rest).1 == final
    ensures Answerable(calls, rest[0])
    ensures Bindable(Step(calls, rest[0]).0, rest[1..])
    ensures Serve(Step(calls, rest[0]).0, rest[1..]).0 == Serve(calls, rest).0
    ensures res + Step(calls, rest[0]).1 + Serve(Step(calls, rest[0]).0, rest[1..]).1 == final
  {
    ServeUnfold(calls, rest);
    var step := Step(calls, rest[0]);
    SeqAlgebra.ConcatAssoc(res, step.1, Serve(step.0, rest[1..]).1);
  }

  /** The loop of the `/` route: each request answered in order, the entries collected. */
  method ServeAll(wsdl: Wsdl, requests: seq<Reader.Request>) returns (res: seq<(string, Data)>)
    requires wsdl.Valid() && Bindable(wsdl.calls, requests)
    modifies wsdl
    ensures wsdl.Valid()
    ensures wsdl.bytes == old(wsdl.bytes) && wsdl.changed == old(wsdl.changed)
    ensures wsdl.calls == Serve(old(wsdl.calls), requests).0
    ensures res == Serve(old(wsdl.calls), requests).1
  {
    ghost var final := Serve(wsdl.calls, requests);
    res := [];
    assert requests[0..] == requests;
    assert [] + final.1 == final.1;
    for idx := 0 to |requests|
      invariant wsdl.Valid()
      invariant wsdl.bytes == old(wsdl.bytes) && wsdl.changed == old(wsdl.changed)
      invariant Bindable(wsdl.calls, requests[idx..])
      invariant Serve(wsdl.calls, requests[idx..]).0 == final.0
      invariant res + Serve(wsdl.calls, requests[idx..]).1 == final.1
    {
      assert requests[idx..][0] == requests[idx] && requests[idx..][1..] == requests[idx + 1..];
      ServeAdvance(wsdl.calls, requests[idx..], res, final.1);
      var entry := Answer(wsdl, requests[idx]);
      res := res + entry;
    }
    assert requests[|requests|..] == [];
    assert res + [] == res;
  }

  /**
   * The `/` route: reads the requests from the envelope's events, serves each in
   * order against the registry and answers with `soap_response` of the results. The
   * argument slots keep the values bound last; the cached description stays valid.
   */
  method HandleSoap(wsdl: Wsdl, events: seq<Reader.Event>) returns (content: string)
    requires wsdl.Valid()
    requires Bindable(wsdl.calls, Reader.Parse(events))
    modifies wsdl
    ensures wsdl.Valid()
    ensures wsdl.bytes == old(wsdl.bytes) && wsdl.changed == old(wsdl.changed)
    ensures wsdl.calls == Serve(old(wsdl.calls), Reader.Parse(events)).0
    ensures content == SoapResponseText(Serve(old(wsdl.calls), Reader.Parse(events)).1)
  {
    var requests := Reader.ReadEvents(events);
    var res := ServeAll(wsdl, requests);
    content := SoapResponse(res);
  }

  /**
   * The `/?wsdl` route: the cached bytes decoded as UTF-8. The bytes are always valid
   * UTF-8, so the decoding is lossless and yields the document text itself.
   */
  method HandleWsdl(wsdl: Wsdl) returns (content: string)
    requires wsdl.Valid()
    modifies wsdl
    ensures wsdl.Valid() && !wsdl.changed && wsdl.calls == old(wsdl.calls)
    ensures content == DocumentText("UTF-8", Definitions(wsdl.namespace, wsdl.targetNamespace, wsdl.calls))
  {
    var b := wsdl.AsBytes();
    DescribeDecodes(wsdl.namespace, wsdl.targetNamespace, wsdl.calls);
    var decoded := Utf8.Decode(b);
    content := decoded.value;
  }

  /** Serving the description twice gives the same text, and the calls are untouched. */
  method HandleWsdlTwice(wsdl: Wsdl) returns (first: string, second: string)
    requires wsdl.Valid()
    modifies wsdl
    ensures first == second
    ensures wsdl.calls == old(wsdl.calls)
  {
    first := HandleWsdl(wsdl);
    second := HandleWsdl(wsdl);
  }
}
