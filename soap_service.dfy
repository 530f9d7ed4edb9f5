/**
 * The operation registry of src/soap/service.rs: options with their defaults
 * (src/soap/options.rs), the choice of transport at construction, operations keyed
 * by their own name, and the `/` route's resolution of a request to its operation,
 * falling back to a not-found operation.
 */
module SoapService {
  import opened SoapPart
  import opened SoapReply
  import opened XmlElement
  import Wrappers

  datatype Options = Options(bindAddr: string, namespace: string, serviceName: string)

  /** `Options::default`: no bind address, namespace `server`, service name `Service`. */
  function DefaultOptions(): (o: Options)
    ensures o.bindAddr == "" && o.namespace == "server" && o.serviceName == "Service"
  {
    Options("", "server", "Service")
  }

  /** The HTTP service started underneath: on the host alone or on an explicit bind address. */
  datatype Transport =
    | OnHost(host: string, port: uint16)
    | OnBind(host: string, bindAddr: string, port: uint16)

  /** A decoded request: the operation name and its argument parts. */
  datatype Request = Request(operation: string, arguments: map<string, Part>)

  /** An operation and its handler, which turns a request into a response. */
  datatype Operation = Operation(
    doc: string,
    name: string,
    inputs: map<string, Part>,
    outputs: map<string, Part>,
    closure: Request -> Response)

  /** The branch of `new_with_opts`: an empty bind address means the host alone. */
  function ChooseTransport(host: string, port: uint16, opts: Options): (t: Transport)
    ensures t.host == host && t.port == port
    ensures t.OnHost? <==> opts.bindAddr == ""
    ensures t.OnBind? ==> t.bindAddr == opts.bindAddr
  {
    if opts.bindAddr == "" then OnHost(host, port) else OnBind(host, opts.bindAddr, port)
  }

  /** The operation the route runs for a name: the registered one, or the fallback. */
  function Lookup(operations: map<string, Operation>, name: string, notFound: Operation): (op: Operation)
    ensures name in operations ==> op == operations[name]
    ensures name !in operations ==> op == notFound
  {
    if name in operations then operations[name] else notFound
  }

  /** After an operation is added, its name resolves to it. */
  lemma LookupAdded(operations: map<string, Operation>, op: Operation, notFound: Operation)
    ensures Lookup(operations[op.name := op], op.name, notFound) == op
  {
  }

  /** Adding an operation leaves the resolution of every other name as it was. */
  lemma LookupOthers(operations: map<string, Operation>, op: Operation, name: string, notFound: Operation)
    requires name != op.name
    ensures Lookup(operations[op.name := op], name, notFound) == Lookup(operations, name, notFound)
  {
  }

  /** Adding an operation twice under one name keeps only the second. */
  lemma ReAddReplaces(operations: map<string, Operation>, first: Operation, second: Operation)
    requires first.name == second.name
    ensures operations[first.name := first][second.name := second] == operations[second.name := second]
  {
  }

  class Service {
    const transport: Transport
    const options: Options
    var operations: map<string, Operation>

    /** `Service::new_with_opts`: the transport chosen by the options, no operations yet. */
    constructor NewWithOpts(host: string, port: uint16, opts: Options)
      ensures transport == ChooseTransport(host, port, opts)
      ensures options == opts
      ensures operations == map[]
    {
      transport := ChooseTransport(host, port, opts);
      options := opts;
      operations := map[];
    }

    /** `Service::new`: `new_with_opts` with the default options, hence on the host alone. */
    constructor New(host: string, port: uint16)
      ensures transport == OnHost(host, port)
      ensures options == DefaultOptions()
      ensures operations == map[]
    {
      transport := ChooseTransport(host, port, DefaultOptions());
      options := DefaultOptions();
      operations := map[];
    }

    /**
     * `add_operation`: the operation is stored under its own name, replacing any
     * earlier one of that name; all other entries are unchanged.
     */
    method AddOperation(op: Operation)
      modifies this
      ensures operations == old(operations)[op.name := op]
      ensures op.name in operations && operations[op.name] == op
      ensures forall name :: name in old(operations) && name != op.name ==> name in operations && operations[name] == old(operations)[name]
      ensures operations.Keys == old(operations).Keys + {op.name}
    {
      operations := operations[op.name := op];
    }

    /**
     * The `/` route: the request's operation is resolved by name with `notFound` as
     * the fallback, its handler answers the request, and the answer goes out as the
     * Envelope of that response.
     */
    method Route(request: Request, notFound: Operation) returns (envelope: Element)
      ensures envelope == EnvelopeXml(Lookup(operations, request.operation, notFound).closure(request))
    {
      var find := if request.operation in operations then Wrappers.Some(operations[request.operation]) else Wrappers.None;
      var operation := match find case Some(op) => op case None => notFound;
      var res := operation.closure(request);
      envelope := ToXml(res);
    }
  }
}
