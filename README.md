# simple_soap protocol engine, modelled in Dafny

This project models the protocol engine of simple_soap, a small SOAP 1.1 RPC server written in Rust, apart from its HTTP transport. It covers:

- **XML emission tree** (`XmlElement`, `XmlDocument`): a node/text tree, its serialiser, which escapes nothing, and a document that prepends the XML declaration.
- **Value model** (`Types`, `SoapPart`): typed argument slots (`Data`) whose `set_value` turns wire text into a value, remote calls with an abstract handler, and the XML Schema part kinds with their `xsd_type`.
- **Envelope reader** (`Reader`): a forward-only state machine over a sequence of XML events. A step counter enforces declaration, then Envelope, then Body. Each start tag read at Body level, other than Envelope and Body, becomes a request named by its local name; an inner loop collects the argument texts up to the request's end tag, where argument start tags only move the cursor.
- **Registry of remote calls** (`Wsdl`): first-match lookup by name and a dirty flag. The WSDL 1.1 description (messages, portType, SOAP binding, service) is generated lazily into cached UTF-8 bytes.
- **Server** (`SoapServer`): `soap_response`, which builds the answer envelope by string concatenation, and the `/` and `/?wsdl` routes. The `/` route reads the requests, rebinds the argument slots of each known call in the registry, runs its handler and collects the results.
- **Fault and response trees** (`SoapFault`, `SoapReply`): the SOAP 1.1 Fault element (section 4.4 of the SOAP 1.1 note) and the response Envelope. Both are modelled as the `Element` tree they build.
- **Draft WSDL builder** (`SoapWsdl`): `definitions` with the namespace used verbatim, schema imports and per-call messages.
- **Service** (`SoapService`): the operation registry, keyed by operation name, with a not-found fallback, and the options that choose the transport.

Loops in the source are methods with loop invariants, proved against specification functions. The registry, the XML document, the event stream and the service are classes whose methods state their new state. The specification functions carry the lemmas: round trips, invariance under rebinding, ordering and counts.

## Model

| member | source | states |
|---|---|---|
| XmlElement.RenderAttrs | src/xml/element.rs:29-35 | the attributes rendered in list order; `RenderAttrsCons` and `RenderAttrsAppend` state its shape |
| XmlElement.Render | src/xml/element.rs:22-58 | `to_string` as a recursive definition: text verbatim, a childless node self-closing, otherwise open tag, children, close tag; `ToString` is proved equal to it and the lemmas below state its shape |
| XmlElement.RenderAll | src/xml/element.rs:40-50 | the children rendered in order; `RenderAllAppend` shows it distributes over concatenation |
| XmlElement.NewNode | src/xml/element.rs:7-15 | the node keeps its tag and children; the attribute pairs are copied one by one, the same count, names and values in the same order |
| XmlElement.NewText | src/xml/element.rs:17-19 | `new_text(c)` is the text leaf `c`, which renders as exactly `c` |
| XmlElement.ToString | src/xml/element.rs:22-58 | the string the attribute and child loops accumulate equals the recursive rendering `Render` |
| XmlElement.RenderEmptyNode | src/xml/element.rs:25-38 | a node with no children renders self-closing, `<tag` + attributes + `/>` |
| XmlElement.RenderNodeWithChildren | src/xml/element.rs:41-49 | a node with children renders as its open tag, then the first child and the rest in order, then `</tag>` |
| XmlElement.RenderNodeParts | src/xml/element.rs:41-49 | a node with children is its open tag, the concatenated children and its close tag |
| XmlElement.RenderAllAppend | src/xml/element.rs:43-45 | rendering a concatenation of children is the concatenation of their renderings (order is kept) |
| XmlElement.RenderAttrsAppend | src/xml/element.rs:29-35 | attribute rendering distributes over concatenation of attribute lists |
| XmlElement.RenderAttrsCons | src/xml/element.rs:29-35 | each attribute contributes a space, its name, `="`, its value and `"`, in list order |
| XmlElement.RenderEmptyTextChild | src/xml/element.rs:37 | a node whose only child is `Text("")` renders `<tag></tag>`, not self-closing, since the test counts children |
| XmlElement.TextIsNotEscaped | src/xml/element.rs:54-56 | for every element `e`, a node holding the rendering of `e` as text renders exactly like the node holding `e` itself, and the two trees differ whenever `e` is a node: nothing is escaped |
| XmlElement.UnescapedMarkup | src/xml/element.rs:54-56 | `<a>` holding the text `<b/>` and `<a>` holding the node `<b/>` are different trees with the same rendering |
| XmlDocument.Declaration | src/xml/document.rs:33-35 | the `<?xml version="1.0" encoding="…"?>` prefix of every document text (`DocumentText`) |
| XmlDocument.DocumentText | src/xml/document.rs:29-41 | the document text is the declaration with the encoding followed by exactly the root's rendering |
| XmlDocument.Document.constructor | src/xml/document.rs:9-14 | a new document stores the encoding and the root `Node("xml", [], [])`, and renders as the declaration + `<xml/>` |
| XmlDocument.Document.SetRoot | src/xml/document.rs:16-22 | only the root is replaced: the encoding is unchanged, `GetRoot` returns the new element, and the text is the new document |
| XmlDocument.Document.GetRoot | src/xml/document.rs:20-22 | the stored root; after `SetRoot(e)` it is `e`, and a new document's is `<xml/>` |
| XmlDocument.Document.ToString | src/xml/document.rs:29-41 | the text of the current state is `DocumentText(encoding, root)` |
| Types.FromUnit | src/types.rs:20-24 | the unit value converts to `Null` |
| Types.Data.New | src/types.rs:33-39 | a new slot has the given name and type and holds `Null` |
| Types.Data.SetValue | src/types.rs:41-46 | name and type never change; a string slot holds the text, every other slot `Null` (numeric text is not parsed) |
| Types.SetValueLastWins | src/types.rs:41-46 | setting twice is setting once with the second text |
| Types.SetValueForgetsOld | src/types.rs:41-46 | the result depends only on name, type and text, never on the old value |
| Types.RemoteCall.New | src/types.rs:61-72 | doc, name, arguments, result and handler are stored unchanged |
| Types.RemoteCall.Call | src/types.rs:74-76 | a call always succeeds with the handler applied to the current arguments |
| SoapPart.XsdType | src/soap/part.rs:47-52 | every part, string or not, has schema type `xsd:string` |
| SoapPart.XsdTypeConstant | src/soap/part.rs:47-52 | the type name ignores kind and payload: any two parts agree |
| Reader.XmlStream.Next | src/reader.rs:59-62 | the stream yields its next event and advances, or reports the end and stays there |
| Reader.IndexOfColon | src/reader.rs:36-52 | the index of the first `:` |
| Reader.TagName | src/reader.rs:36-52 | a name without `:` splits as ("", name); otherwise the pieces around the first `:` up to the next `:` |
| Reader.TagNameJoin | src/reader.rs:36-52 | `ns:local` and `ns:local:rest` both split as (ns, local) |
| Reader.LocalNamePlain | src/reader.rs:36-52 | a name without `:` is its own local name |
| Reader.TagNameQualified | src/reader.rs:36-52 | `tag_name("ns:local") = ("ns", "local")` |
| Reader.TagNameUnqualified | src/reader.rs:36-52 | `tag_name("local") = ("", "local")` |
| Reader.TagNameTwoColons | src/reader.rs:36-52 | `tag_name("a:b:c") = ("a", "b")` |
| Reader.EnvelopeTagName | src/reader.rs:73-76 | the local name of `SOAP-ENV:Envelope` is `Envelope` |
| Reader.BodyTagName | src/reader.rs:73-83 | the local name of `SOAP-ENV:Body` is `Body` |
| Reader.SoapEnvelopeTags | src/reader.rs:73-89 | the usual `SOAP-ENV:` tags pass the Envelope and Body tests |
| Reader.LocalName | src/reader.rs:36-52 | the second component of `tag_name`; `TagNameJoin` and `LocalNamePlain` state it on qualified and plain names |
| Reader.ParseMethod | src/reader.rs:107-155 | the request is named by the method tag, keeps every argument already stored, and the rest of the stream is a suffix |
| Reader.ReadMethod | src/reader.rs:107-155 | the `read_method` loop yields what `ParseMethod` specifies and leaves the stream after the consumed events |
| Reader.ParseRequests | src/reader.rs:54-105 | `read_xml` as a recursive definition over the pending events, the step counter and the collected requests; `ReadXml` is proved equal to it and the lemmas below state its stops, skips and round trip |
| Reader.Parse | src/reader.rs:20-25 | `ParseRequests` from step 0 with nothing collected, the result of reading a whole input |
| Reader.ReadXml | src/reader.rs:54-105 | the `read_xml` loop yields exactly `ParseRequests` of the stream, from step 0 |
| Reader.ReadEvents | src/reader.rs:20-25 | reading an event sequence gives `Parse` of it |
| Reader.ParseKeepsCollected | src/reader.rs:54-105 | stopping never discards requests already collected |
| Reader.NoBodyNoRequests | src/reader.rs:76-96 | before step 3, a stream with no Body start tag adds no request |
| Reader.MissingBodyGivesNothing | src/reader.rs:54-105 | without a Body the result is empty; reading never fails |
| Reader.NoDeclNoRequests | src/reader.rs:65-71 | without a declaration nothing is ever accepted |
| Reader.ParsedOperationNames | src/reader.rs:91-111 | every request is named by a local name (no `:`, not Envelope or Body) |
| Reader.Requests | src/reader.rs:91-95 | one request per invocation, named by the local name of its tag, with each argument stored under its tag's local name |
| Reader.ParseArguments | src/reader.rs:122-146 | argument events, qualified or not, followed by an end tag with the method's local name store each text under its argument's local name and stop right after that end tag |
| Reader.ParseInvocation | src/reader.rs:91-111 | one invocation inside the Body appends exactly its request |
| Reader.ParseBody | src/reader.rs:91-111 | a Body of invocations appends their requests in document order |
| Reader.EnterBody | src/reader.rs:65-89 | declaration, Envelope and Body in order bring the reader to step 3 |
| Reader.SkipEnds | src/reader.rs:99-100 | end tags at step 3 are ignored |
| Reader.EnvelopeRoundTrip | src/reader.rs:54-155 | reading a well-formed envelope, with prefixed or plain operation and argument tags, gives back exactly the requests it encodes, in order |
| Reader.AddExample | src/reader.rs:54-155 | an `m:Add(a=2, b=3)` envelope reads as one request `Add` (prefix dropped) with that argument map |
| Reader.EmptyBodyGivesNothing | src/reader.rs:54-105 | an envelope with an empty Body gives no requests |
| Reader.SecondDeclStops | src/reader.rs:65-71 | a later declaration stops reading and returns the requests collected so far, with no error |
| Reader.BodyBeforeEnvelopeStops | src/reader.rs:83-89 | a Body start tag out of order stops reading |
| Reader.DoubleDeclStops | src/reader.rs:65-71 | a second declaration right after the first stops reading with nothing |
| Reader.DeclOutOfOrderStops | src/reader.rs:65-71 | a declaration at any step but 0 stops reading with the requests collected so far |
| Reader.EnvelopeOutOfOrderStops | src/reader.rs:76-82 | an Envelope start tag, qualified or not, at any step but 1 stops reading with the requests collected so far |
| Reader.BodyOutOfOrderStops | src/reader.rs:83-89 | a Body start tag, qualified or not, at any step but 2 stops reading with the requests collected so far |
| Reader.SkipBeforeBody | src/reader.rs:90-100 | before the Body (step below 3), a run of events with no declaration and no Envelope or Body start tag is skipped without effect |
| Reader.HeaderRoundTrip | src/reader.rs:54-105 | a header between the Envelope and Body tags that holds no declaration and no Envelope or Body start tag changes nothing: the requests read are exactly those the Body encodes |
| Reader.RepeatedArgumentLastWins | src/reader.rs:127-136 | text for a repeated argument name overwrites the earlier text |
| Reader.CursorSurvivesArgumentEnd | src/reader.rs:144-146 | after `</a>` the cursor still names `a`, so a later text is stored under `a` |
| Reader.TextWithoutArgumentEndsMethod | src/reader.rs:128-130 | text with no current argument ends the method, keeping what was stored |
| Reader.MethodStartStep | src/reader.rs:122-126 | a start tag inside a method moves the cursor to its local name and stores nothing |
| Reader.MethodTextStep | src/reader.rs:127-136 | a text under a current argument stores its content under that argument and reading goes on |
| Reader.MethodEndStep | src/reader.rs:137-146 | an end tag other than the method's clears the cursor only when the cursor equals the method tag, and reading goes on |
| Wsdl.Tns | src/wsdl.rs:45-48 | `urn:` + namespace + `.` + target namespace, piece by piece |
| Wsdl.TypeToXsd | src/wsdl.rs:239-244 | only the string type has a name (`xsd:string`); every other type maps to "" |
| Wsdl.Namespaces | src/wsdl.rs:50-60 | the default WSDL namespace, the six prefixed namespaces and `tns`/`targetNamespace` bound to the tns; `Definitions` states it is the root's attribute list |
| Wsdl.TypesSection | src/wsdl.rs:62-78 | `types` holding one schema for the tns, importing SOAP encoding then WSDL; `Definitions` puts it first |
| Wsdl.RequestMessage | src/wsdl.rs:82-102 | `<name>Request` with the `ArgumentParts`; `Messages` puts it at index 2i |
| Wsdl.ResponseMessage | src/wsdl.rs:106-117 | `<name>Response` with one part named and typed after the result slot; `Messages` puts it at index 2i+1 |
| Wsdl.ArgumentParts | src/wsdl.rs:90-98 | one part per argument, in order, named and typed after the slot |
| Wsdl.Messages | src/wsdl.rs:80-118 | per call, in added order, its Request message followed by its Response message: 2n messages |
| Wsdl.PortOperation | src/wsdl.rs:126-149 | an operation with the call's documentation and its `tns:` request and response messages; `PortOperations` gives one per call |
| Wsdl.PortType | src/wsdl.rs:120-154 | the portType holding the `PortOperations`; `Definitions` puts it after the messages |
| Wsdl.PortOperations | src/wsdl.rs:120-154 | one portType operation per call, in order |
| Wsdl.BindingOperation | src/wsdl.rs:170-201 | an rpc operation with soapAction `urn:<namespace>.<name>#<name>` and encoded input and output bodies in `urn:<namespace>.<name>` |
| Wsdl.Binding | src/wsdl.rs:156-206 | `soap:binding` over HTTP followed by the `BindingOperations`; `Definitions` puts it after portType |
| Wsdl.BindingOperations | src/wsdl.rs:169-203 | one binding operation per call, in order, with soapAction `urn:<namespace>.<name>#<name>` |
| Wsdl.Definitions | src/wsdl.rs:50-227 | the root declares the eight namespaces with `tns`; its 2n+4 children are types, the messages in call order, portType, binding and service |
| Wsdl.Describe | src/wsdl.rs:229-231 | the UTF-8 bytes of the document whose root is `Definitions`; `DescribeDecodes` and `DefinitionsByShape` state what they hold and what they depend on |
| Wsdl.FindFrom | src/wsdl.rs:31-39 | the first matching call at or after an index, or NotFound when none matches |
| Wsdl.FindCall | src/wsdl.rs:31-39 | the first call with the name (earlier duplicates win); NotFound exactly when no call has it |
| Wsdl.Params | src/wsdl.rs:90-98 | the names and types of the arguments, which is all the description reads |
| Wsdl.ArgumentPartsByShape | src/wsdl.rs:90-98 | argument parts depend only on names and types |
| Wsdl.CallByShape | src/wsdl.rs:80-203 | a call's messages and operations depend only on its shape, not on bound values or the handler |
| Wsdl.MessagesByShape | src/wsdl.rs:80-118 | calls of equal shapes give equal messages |
| Wsdl.OperationsByShape | src/wsdl.rs:120-203 | calls of equal shapes give equal portType and binding operations |
| Wsdl.DefinitionsByShape | src/wsdl.rs:50-227 | calls of equal shapes give the same description |
| Wsdl.DescribeByShape | src/wsdl.rs:41-236 | calls of the same shapes are described by the same bytes, so rebinding argument values never makes the cache stale |
| Wsdl.UpdateKeepsShapes | src/soap/server.rs:51-60 | replacing one call by a call of the same shape keeps the shapes of the whole list |
| Wsdl.Generate | src/wsdl.rs:42-233 | the rebuilt bytes are exactly the description of the calls |
| Wsdl.DescribeDecodes | src/wsdl.rs:231 | the cached bytes are valid UTF-8 and decode to the document text |
| Wsdl.AddedCallMessages | src/wsdl.rs:26-118 | adding a call appends its two messages after the earlier ones, which are unchanged |
| Wsdl.Wsdl.constructor | src/wsdl.rs:16-24 | a new registry has no calls, no bytes and `changed` set |
| Wsdl.Wsdl.Add | src/wsdl.rs:26-29 | the call is appended at the end, `changed` is set, the bytes are untouched |
| Wsdl.Wsdl.GetCallbackMut | src/wsdl.rs:31-39 | the search loop returns `FindCall` of the name |
| Wsdl.Wsdl.UpdateCall | src/soap/server.rs:51-60 | a write through the borrowed call replaces that call only, by one of the same shape; bytes and `changed` are untouched and the cache stays valid |
| Wsdl.Wsdl.CacheDescribes | src/wsdl.rs:41-236 | with no change pending, a valid cache holds the description of the current calls |
| Wsdl.Wsdl.AsBytes | src/wsdl.rs:41-236 | the bytes returned are the description of the current calls; `changed` is cleared; unchanged state returns the cached bytes untouched |
| Wsdl.BuildMessages | src/wsdl.rs:80-118 | the message loop builds `Messages` |
| Wsdl.BuildParts | src/wsdl.rs:88-100 | the part loop builds `ArgumentParts` |
| Wsdl.BuildPortOperations | src/wsdl.rs:122-153 | the portType loop builds `PortOperations` |
| Wsdl.BuildBindingOperations | src/wsdl.rs:162-205 | the binding loop builds `BindingOperations` |
| SoapServer.ReturnText | src/soap/server.rs:105-114 | `<return xsi:type="xsd:string">s</return>` for a string `s`, otherwise `<result xsi:type="xsd:string"/>`; `RenderReturn` shows it is the rendering of the matching element |
| SoapServer.EntryText | src/soap/server.rs:100-119 | one result wrapped in `<ns1:NAMEResponse>`; `RenderEntry` shows it is the rendering of the entry element |
| SoapServer.SoapResponseText | src/soap/server.rs:91-125 | head, one entry per result in order, tail; `SoapResponseIsDocument` and `EmptySoapResponse` relate it to the document of the response tree |
| SoapServer.SoapResponse | src/soap/server.rs:91-125 | the pushes give exactly the head, one entry per result in order, and the tail |
| SoapServer.PushEntry | src/soap/server.rs:100-119 | one result adds `<ns1:NAMEResponse>`, `<return xsi:type="xsd:string">s</return>` for a string `s` or `<result xsi:type="xsd:string"/>` otherwise, and the close tag |
| SoapServer.EntriesAppend | src/soap/server.rs:100-119 | the entries of concatenated results are the concatenated entries: input order is kept |
| SoapServer.EntryElements | src/soap/server.rs:100-119 | one element per result |
| SoapServer.ResponseHeadIsOpenTags | src/soap/server.rs:92-98 | the head is the declaration, the Envelope open tag declaring only `xsd`, `xsi` and `SOAP-ENV`, then `<SOAP-ENV:Body>` |
| SoapServer.ResponseTailIsCloseTags | src/soap/server.rs:121-122 | the text ends with `</SOAP-ENV:Body></SOAP-ENV:Envelope>` |
| SoapServer.RenderReturn | src/soap/server.rs:106-113 | the result piece is the rendering of a `return` with its text (unescaped) or an empty `result` element |
| SoapServer.RenderEntry | src/soap/server.rs:100-119 | each entry is the rendering of its `ns1:NAMEResponse` element |
| SoapServer.RenderEntries | src/soap/server.rs:100-119 | all entries are the rendering of the entry elements |
| SoapServer.SoapResponseIsDocument | src/soap/server.rs:91-125 | with at least one result, the text is the UTF-8 document of the envelope tree |
| SoapServer.EmptySoapResponse | src/soap/server.rs:91-125 | no results give head + tail, an Envelope with an empty Body written as open and close tags, so not the tree's self-closing rendering |
| SoapServer.BindArguments | src/soap/server.rs:51-60 | each slot keeps its name and gets `set_value` of the request's text for that name |
| SoapServer.BindKeepsParams | src/soap/server.rs:51-60 | binding keeps every slot's name and type |
| SoapServer.BoundValues | src/soap/server.rs:51-60 | after binding, a string slot holds the request's text and any other slot `Null` |
| SoapServer.RebindForgets | src/soap/server.rs:51-60 | a second binding overrides the first entirely |
| SoapServer.Bound | src/soap/server.rs:51-60 | the bound call has the shape of the call |
| SoapServer.FindCallByShape | src/wsdl.rs:31-39 | lookup depends only on names, so calls of equal shapes resolve alike |
| SoapServer.AnswerableByShape | src/soap/server.rs:51-56 | a request that can be bound stays bindable after any rebinding |
| SoapServer.BindableByShape | src/soap/server.rs:43-56 | the same, for every remaining request |
| SoapServer.Step | src/soap/server.rs:43-69 | an unknown method leaves the calls as they are and answers nothing; otherwise the first call with that name becomes `Bound` (each slot `set_value` of the request's text), every other call is unchanged, and the one entry is the method name with the handler applied to the bound arguments |
| SoapServer.Serve | src/soap/server.rs:43-69 | the calls after all rebinding keep their shapes; at most one entry per request |
| SoapServer.ServeUnfold | src/soap/server.rs:43-69 | serving is the first request's step followed by serving the rest from the new calls |
| SoapServer.UnknownRequestSkipped | src/soap/server.rs:49-69 | a request whose method has no registered call adds no entry and changes no call |
| SoapServer.KnownRequestAnswered | src/soap/server.rs:51-64 | a found call answers with its name and its handler applied to the request's argument values |
| SoapServer.KnownByShape | src/soap/server.rs:43-69 | rebinding does not change which requests are known |
| SoapServer.ServeCountsKnown | src/soap/server.rs:43-69 | there are exactly as many entries as requests naming a registered call |
| SoapServer.BindCall | src/soap/server.rs:51-60 | the argument loop computes `BindArguments` |
| SoapServer.Answer | src/soap/server.rs:44-69 | one request: the registry's calls become `Step`'s calls and the entry is `Step`'s; the cache and flag are untouched and stay valid |
| SoapServer.ServeAll | src/soap/server.rs:41-69 | the loop over requests leaves the registry and the entries that `Serve` specifies |
| SoapServer.HandleSoap | src/soap/server.rs:37-75 | the `/` route answers `soap_response` of the served entries for the requests the reader finds; the cached bytes stay valid |
| SoapServer.HandleWsdl | src/soap/server.rs:77-85 | the `/?wsdl` route returns, losslessly, the text of the description of the current calls |
| SoapServer.HandleWsdlTwice | src/soap/server.rs:77-85 | serving the description twice gives identical text and leaves the calls alone |
| SoapFault.CodeText | src/soap/fault.rs:12-31 | the `SOAP-ENV:` qualified code name; `CodeTextInverse` shows it determines the code |
| SoapFault.CodeTextInverse | src/soap/fault.rs:12-31 | each fault code's text names that code and no other |
| SoapFault.CodeXml | src/soap/fault.rs:12-31 | `faultcode` is typed `xsd:string` and holds text `SOAP-ENV:VersionMismatch`, `MustUnderstand`, `Server` or `Client` as the code says |
| SoapFault.CodeXmlInjective | src/soap/fault.rs:12-31 | different codes give different `faultcode` elements |
| SoapFault.NewFault | src/soap/fault.rs:42-51 | the code and the three texts are copied verbatim |
| SoapFault.VersionMismatchFault | src/soap/fault.rs:53-57 | a fault with code VersionMismatch and the texts verbatim |
| SoapFault.MustUnderstandFault | src/soap/fault.rs:59-63 | a fault with code MustUnderstand and the texts verbatim |
| SoapFault.ServerFault | src/soap/fault.rs:65-69 | a fault with code Server and the texts verbatim |
| SoapFault.ClientFault | src/soap/fault.rs:71-75 | a fault with code Client and the texts verbatim |
| SoapFault.OptionalChild | src/soap/fault.rs:91-103 | an optional child exists exactly when its text is non-empty |
| SoapFault.StringXml | src/soap/fault.rs:83-89 | `faultstring` typed `xsd:string`, with a text child only for a non-empty string; `FaultStringAlways` states it |
| SoapFault.FaultXml | src/soap/fault.rs:77-106 | the fault tree; `ToXml` is proved equal to it, and `FaultChildCount`, `FaultChildOrder`, `FaultOptionalChildren` and `FaultRoundTrip` state its content |
| SoapFault.ToXml | src/soap/fault.rs:77-106 | the conditional appends build exactly the fault tree |
| SoapFault.FaultChildCount | src/soap/fault.rs:80-103 | the fault has 2 + [actor non-empty] + [detail non-empty] children |
| SoapFault.FaultChildOrder | src/soap/fault.rs:77-105 | faultcode first, faultstring second, then faultactor if present, detail last if present |
| SoapFault.FaultStringAlways | src/soap/fault.rs:83-89 | faultstring is always there; it has a text child exactly when the string is non-empty |
| SoapFault.FaultOptionalChildren | src/soap/fault.rs:91-103 | faultactor is present exactly when the actor is non-empty, detail exactly when the detail is |
| SoapFault.FaultRoundTrip | src/soap/fault.rs:77-106 | reading the tree back gives the fault itself: nothing is lost |
| SoapReply.From | src/soap/response.rs:15-20 | the operation name and the results are stored unchanged |
| SoapReply.NotFound | src/soap/response.rs:22-24 | the not-found answer is the empty text |
| SoapReply.ReturnXml | src/soap/response.rs:44-56 | one `return` typed by `xsd_type` with the part's text as its only child when that text is non-empty; `ReturnsShape` states it |
| SoapReply.ReturnsXml | src/soap/response.rs:43-57 | one `return` per result, in order, built from its part alone |
| SoapReply.EnvelopeXml | src/soap/response.rs:26-61 | the Envelope tree `to_xml_string` builds; `ToXml` is proved equal to it, and `EnvelopeShape`, `OperationRoundTrip` and `ContentsRoundTrip` state its content |
| SoapReply.ToXml | src/soap/response.rs:26-61 | the loop and appends build exactly the envelope tree |
| SoapReply.EnvelopeShape | src/soap/response.rs:30-61 | the Envelope declares exactly `xmlns:xsd`, `xmlns:xsi`, `xmlns:SOAP-ENV`, and holds a single Body with a single `ns1:` + operation + `Response` element |
| SoapReply.ReturnsShape | src/soap/response.rs:43-57 | one `return` per result, typed by `xsd_type`, with a text child exactly when the part is a string with non-empty text |
| SoapReply.OperationRoundTrip | src/soap/response.rs:37-41 | the result element's tag gives back the operation name |
| SoapReply.ContentsRoundTrip | src/soap/response.rs:43-57 | the `return` elements give back each result's string content, in order |
| SoapReply.NamesUnused | src/soap/response.rs:43-57 | the result names do not appear in the tree: only the parts matter |
| SoapWsdl.DotIndex | src/soap/wsdl.rs:29-35 | the index of the first `.`, or the length when there is none |
| SoapWsdl.SplitNamespace | src/soap/wsdl.rs:29-35 | the namespace must contain `.`; the two pieces are the text before the first dot and the text up to the next dot |
| SoapWsdl.SplitDropsThird | src/soap/wsdl.rs:29-35 | only the first two pieces are taken; what follows a second dot is dropped |
| SoapWsdl.ValueToXsd | src/soap/wsdl.rs:123-129 | a string value's own text; "" for any other value |
| SoapWsdl.ImportsXml | src/soap/wsdl.rs:78-83 | one `xsd:import` per schema URI, in the given order |
| SoapWsdl.SchemaImportXml | src/soap/wsdl.rs:72-88 | `types` with one `xsd:schema` for the namespace holding the `ImportsXml`; `SchemaImportMatchesRegistry` relates it to the registry's section |
| SoapWsdl.SchemaImport | src/soap/wsdl.rs:72-88 | the import loop builds a `types` holding one `xsd:schema` for the namespace with those imports |
| SoapWsdl.PartXml | src/soap/wsdl.rs:98-100 | a `part` named after the slot whose type attribute is the slot value's text; `UnboundPartsUntyped` and `BoundPartTypedByText` state it |
| SoapWsdl.PartsXml | src/soap/wsdl.rs:97-103 | one part per argument, in order, named after the slot and typed by its value |
| SoapWsdl.RequestXml | src/soap/wsdl.rs:90-106 | `<name>Request` with the `PartsXml`; `RequestMatchesRegistry` relates it to the registry's message |
| SoapWsdl.RegisterArguments | src/soap/wsdl.rs:90-106 | the part loop builds the `<name>Request` message |
| SoapWsdl.ResponseXml | src/soap/wsdl.rs:108-121 | `<name>Response` with exactly one part, named literally `result` |
| SoapWsdl.MessagesXml | src/soap/wsdl.rs:59-67 | per call, its request then its response message |
| SoapWsdl.DefinitionsXml | src/soap/wsdl.rs:37-69 | the definitions tree, with the namespace as `tns`; `NamespaceVerbatim` and `DefinitionsChildren` state its attributes and children |
| SoapWsdl.Definitions | src/soap/wsdl.rs:28-70 | with a namespace containing `.`, the loop builds the definitions tree |
| SoapWsdl.NamespaceVerbatim | src/soap/wsdl.rs:46-76 | `xmlns:tns`, `targetNamespace` and the schema's target namespace are the namespace itself, with no `urn:` prefix |
| SoapWsdl.DefinitionsChildren | src/soap/wsdl.rs:49-69 | 2n+1 children: the import section, then each call's request and response, and no portType, binding or service |
| SoapWsdl.SchemaImportMatchesRegistry | src/soap/wsdl.rs:49-54 | the import section is the registry's `types` element, for the namespace itself |
| SoapWsdl.RequestMatchesRegistry | src/soap/wsdl.rs:90-106 | the request message has the registry's name and part names |
| SoapWsdl.UnboundPartsUntyped | src/soap/wsdl.rs:100-129 | slots holding no text give parts with an empty type |
| SoapWsdl.BoundPartTypedByText | src/soap/wsdl.rs:100-129 | a string slot bound to a text declares that text as its part's type, so the draft changes with binding |
| SoapService.DefaultOptions | src/soap/options.rs:8-14 | bind address "", namespace `server`, service name `Service` |
| SoapService.ChooseTransport | src/soap/service.rs:28-33 | the host alone exactly when the bind address is empty (so always for the default options), otherwise the explicit bind address; host and port are kept |
| SoapService.Lookup | src/soap/service.rs:60-66 | a registered name resolves to its operation, an unregistered one to the fallback, whose handler then runs |
| SoapService.LookupAdded | src/soap/service.rs:42-45 | after adding, the operation's own name resolves to it |
| SoapService.LookupOthers | src/soap/service.rs:42-45 | adding leaves the resolution of every other name unchanged |
| SoapService.ReAddReplaces | src/soap/service.rs:43-44 | re-adding a name keeps only the latest operation |
| SoapService.Service.NewWithOpts | src/soap/service.rs:25-40 | the transport is chosen by the bind address, the options kept, no operations |
| SoapService.Service.New | src/soap/service.rs:21-23 | default options, so the host-only transport, and no operations |
| SoapService.Service.AddOperation | src/soap/service.rs:42-45 | the operation is stored under its own name, replacing an earlier one; all other entries are unchanged |
| SoapService.Service.Route | src/soap/service.rs:57-74 | the answer is the envelope tree of the resolved operation's handler applied to the request |
| Utf8.Encode | src/wsdl.rs:231 | `into_bytes` of a string, character by character; `DecodeEncode` shows it is inverted by `Decode` |
| Utf8.Decode | src/soap/server.rs:83 | strict decoding, the case of `from_utf8_lossy` where nothing is replaced; `DecodeEncode` shows it inverts `Encode` |
| Utf8.EncodeChar | src/wsdl.rs:231 | one to four bytes per character, one exactly for ASCII |
| Utf8.DecodeEncode | src/soap/server.rs:83 | decoding the UTF-8 encoding of a text gives back the text |
| Utf8.EncodeAscii | src/wsdl.rs:231 | ASCII text encodes byte for byte |

## Left out

- HTTP transport, route tables and server start-up (src/service.rs, src/service/, src/server.rs) are outside the model. The routes are methods that take the decoded request, and the transport is only the `Transport` value the service records.
- The quick_xml stream and file reading (`Reader::from`, `Reader::from_file`) are replaced by a sequence of events. Whitespace trimming is taken as already applied. Non-UTF-8 tag or text bytes, which `from_utf8_lossy` would replace, do not arise: names and texts are strings.
- quick_xml read errors are the `Other` event, together with comments, CDATA, processing instructions and doctypes. Both reading loops skip it in their catch-all arms, as the source does, so no read error is ever reported.
- `Arc<Mutex<…>>` locking is left out (single-threaded access). This includes the window in the `/` route where the lock is released before the found call is mutated.
- `println!` diagnostics and the commented-out blocks of src/soap/wsdl.rs and src/types.rs are left out.
- The constrained integer kinds of src/soap/part.rs:31-34 (negative, positive, non-negative and non-positive integers) hold an unsigned 64-bit magnitude with no range check, as in the source. Zero fits each of them, and the model proves nothing about their ranges.
- `Document::get_mut_root` is left out: it only lends the root for in-place edits, which `SetRoot` with the edited tree covers.
- Float payloads (`Value::Float`, `Part::Decimal`) are opaque bit patterns; nothing computes with them.
- Handlers are pure functions. The source's `FnMut` closures may keep state between calls; that state is not modelled.
- SoapServer.HandleSoap: a request for a registered call that lacks one of its declared arguments panics on `unwrap` in the source. Here that is the precondition `Bindable`, not a modelled crash.
- SoapServer.HandleWsdl: `from_utf8_lossy` is modelled as exact decoding. This is sound because the cached bytes are proved to be valid UTF-8 (`Wsdl.DescribeDecodes`).
- SoapWsdl.Definitions: a namespace without `.` panics on the second `unwrap` in the source. Here it is a precondition.
- The `/?wsdl` route of src/soap/service.rs is left out. It serves a text computed once, before the route is added, by a `Wsdl::from(&self)` that no module defines.
- `soap::wsdl::from` is left out: it only formats the tree (foreign library) and prints it. The call list it reaches through a missing accessor is a parameter of `SoapWsdl.Definitions`.
- SoapReply.ToXml stops at the element tree. sxd_document's `format_document` byte output and its escaping are a foreign library, and so is the final `from_utf8`. The same holds for `SoapFault.ToXml` and `SoapWsdl`. sxd attribute setting is modelled as appending name/value pairs in call order, and `set_default_namespace_uri` as the leading `xmlns` attribute.
- SoapReply.Response: the source iterates its `responses` map by moving out of `&self`, which does not compile as written. The model iterates the entries in the map's iteration order, given as a list.
- SoapService.Service.Route: `Operation::not_found` does not exist, so the fallback operation is a parameter. `Request::from` is a stub that builds an empty request, so the route takes the decoded request as given.
- SoapService.Operation: the closure is declared as a map-to-map function, but the route calls it with a `Request` and calls `to_xml_string` on the result. The model follows the route: the handler turns a `Request` into a `Response`.
- Hash-map argument lists (`FnArgs`, response maps) are lists of entries in iteration order, which Rust leaves unspecified. The request argument map of the reader is a `map`, since it is only inserted into and looked up.
- The reader reports no `Malformed` error. On an out-of-order declaration, Envelope or Body it stops and returns the requests collected so far, as the code does.
- The Envelope and Body tests look at the local name only. The envelope lemmas therefore take any tags whose local names are `Envelope` and `Body`, and `SOAP-ENV:` tags are one instance of them.
- The server writes `<return …>` for a string result and `<result …/>` for any other value. The model keeps this tag mismatch as written.
