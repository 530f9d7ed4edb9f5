/**
 * The envelope reader of src/reader.rs: a forward-only consumer of XML events that
 * yields one Request (operation name plus argument map) per element found inside
 * the SOAP Body.
 *
 * The event stream quick_xml produces is the sequence `events` of an XmlStream;
 * `trim_text(true)` is assumed to have dropped whitespace-only text already.
 */
module Reader {
  import opened Wrappers
  import SeqAlgebra

  datatype Event =
    | Decl
    | Start(name: string)
    | End(name: string)
    | Text(content: string)
      /** comments, CDATA, processing instructions, doctype, and read errors */
    | Other

  datatype Request = Request(methodName: string, arguments: map<string, string>)

  /** A quick_xml reader: the events it will produce and how many it has produced. */
  class XmlStream {
    const events: seq<Event>
    var pos: nat

    ghost predicate Valid()
      reads this
    {
      pos <= |events|
    }

    /** The events not yet consumed. */
    ghost function Remaining(): seq<Event>
      reads this
      requires Valid()
    {
      events[pos..]
    }

    constructor (events: seq<Event>)
      ensures Valid() && this.events == events && Remaining() == events
    {
      this.events := events;
      pos := 0;
    }

    /** `xml.next()`: the next event, or None at the end of the input. */
    method Next() returns (e: Option<Event>)
      requires Valid()
      modifies this
      ensures Valid()
      ensures old(Remaining()) == [] ==> e.None? && Remaining() == []
      ensures old(Remaining()) != [] ==> e == Some(old(Remaining())[0]) && Remaining() == old(Remaining())[1..]
    {
      if pos == |events| {
        e := None;
      } else {
        e := Some(events[pos]);
        pos := pos + 1;
        assert events[pos..] == events[pos - 1..][1..];
      }
    }
  }

  /** The index of the first ':' in `s`, or `|s|` when there is none. */
  function IndexOfColon(s: string): (i: nat)
    ensures i <= |s|
    ensures forall k :: 0 <= k < i ==> s[k] != ':'
    ensures i < |s| ==> s[i] == ':'
  {
    if s == [] || s[0] == ':' then 0 else 1 + IndexOfColon(s[1..])
  }

  /**
   * `Reader::tag_name`: splits a qualified name at ':' into (namespace, local name).
   * Without a ':' the namespace is empty and the local name is the whole name;
   * otherwise the namespace is the text before the first ':' and the local name the
   * text between the first ':' and the next one (or the end), so `a:b:c` gives (a, b).
   */
  function TagName(full: string): (r: (string, string))
    ensures ':' !in r.0 && ':' !in r.1
    ensures ':' !in full ==> r == ("", full)
    ensures ':' in full ==>
              var n := |r.0|;
              && n + 1 + |r.1| <= |full|
              && full[..n] == r.0 && full[n] == ':' && full[n + 1..n + 1 + |r.1|] == r.1
              && (n + 1 + |r.1| == |full| || full[n + 1 + |r.1|] == ':')
  {
    var i := IndexOfColon(full);
    if i == |full| then
      ("", full)
    else
      var rest := full[i + 1..];
      var j := IndexOfColon(rest);
      assert full[i + 1..i + 1 + j] == rest[..j];
      (full[..i], rest[..j])
  }

  function LocalName(full: string): string
  {
    TagName(full).1
  }

  /** The first ':' of `ns + ":" + rest` is the one after `ns` when `ns` has none. */
  lemma {:induction false} ColonAfter(ns: string, rest: string)
    requires ':' !in ns
    ensures IndexOfColon(ns + ":" + rest) == |ns|
    decreases |ns|
  {
    if ns != [] {
      assert (ns + ":" + rest)[1..] == ns[1..] + ":" + rest;
      ColonAfter(ns[1..], rest);
    }
  }

  /** A name without ':' has its whole length as the colon index. */
  lemma {:induction false} NoColon(s: string)
    requires ':' !in s
    ensures IndexOfColon(s) == |s|
    decreases |s|
  {
    if s != [] {
      NoColon(s[1..]);
    }
  }

  /** Joining a namespace and a local name with ':' splits back into the two. */
  lemma TagNameJoin(ns: string, local: string, rest: string)
    requires ':' !in ns && ':' !in local
    ensures TagName(ns + ":" + local) == (ns, local)
    ensures TagName(ns + ":" + local + ":" + rest) == (ns, local)
  {
    var full := ns + ":" + local;
    ColonAfter(ns, local);
    assert full[|ns| + 1..] == local;
    NoColon(local);
    assert full[..|ns|] == ns && local[..|local|] == local;
    var full2 := ns + ":" + (local + ":" + rest);
    assert full2 == ns + ":" + local + ":" + rest;
    ColonAfter(ns, local + ":" + rest);
    var rest2 := full2[|ns| + 1..];
    assert rest2 == local + ":" + rest;
    ColonAfter(local, rest);
    assert rest2[..|local|] == local;
    assert full2[..|ns|] == ns;
  }

  /** A name without ':' is its own local name. */
  lemma LocalNamePlain(name: string)
    requires ':' !in name
    ensures LocalName(name) == name
  {
  }

  /** `ns:local` splits into (ns, local). */
  lemma TagNameQualified()
    ensures TagName("ns:local") == ("ns", "local")
  {
    TagNameJoin("ns", "local", "");
    assert "ns" + ":" + "local" == "ns:local";
  }

  /** A name without ':' has the empty namespace. */
  lemma TagNameUnqualified()
    ensures TagName("local") == ("", "local")
  {
  }

  /** Only the first two pieces count: `a:b:c` splits into (a, b). */
  lemma TagNameTwoColons()
    ensures TagName("a:b:c") == ("a", "b")
  {
    TagNameJoin("a", "b", "c");
    assert "a" + ":" + "b" + ":" + "c" == "a:b:c";
  }

  /** The local name of the envelope tag the reader looks for. */
  lemma EnvelopeTagName()
    ensures LocalName("SOAP-ENV:Envelope") == "Envelope"
  {
    QualifiedLocalName("SOAP-ENV", "Envelope", "SOAP-ENV:Envelope");
  }

  /** The local name of the body tag the reader looks for. */
  lemma BodyTagName()
    ensures LocalName("SOAP-ENV:Body") == "Body"
  {
    QualifiedLocalName("SOAP-ENV", "Body", "SOAP-ENV:Body");
  }

  /** A literal qualified name `ns:local` has local name `local`. */
  lemma QualifiedLocalName(ns: string, local: string, full: string)
    requires forall k :: 0 <= k < |ns| ==> ns[k] != ':'
    requires forall k :: 0 <= k < |local| ==> local[k] != ':'
    requires |full| == |ns| + 1 + |local|
    requires full[..|ns|] == ns && full[|ns|] == ':' && full[|ns| + 1..] == local
    ensures LocalName(full) == local
  {
    assert full == ns + ":" + local;
    TagNameJoin(ns, local, "");
  }

  /**
   * `Reader::read_method` on the events after the method's start tag: the request
   * built and the events left over. `cur` is the argument cursor, `args` the map so far.
   */
  function ParseMethod(tag: string, evs: seq<Event>, cur: string, args: map<string, string>): (r: (Request, seq<Event>))
    ensures r.0.methodName == tag
    ensures |r.1| <= |evs| && r.1 == evs[|evs| - |r.1|..]
    ensures args.Keys <= r.0.arguments.Keys
    decreases |evs|
  {
    if evs == [] then
      (Request(tag, args), [])
    else
      var r := match evs[0]
        case Start(name) => ParseMethod(tag, evs[1..], LocalName(name), args)
        case Text(content) =>
          if cur == "" then (Request(tag, args), evs[1..])
          else ParseMethod(tag, evs[1..], cur, args[cur := content])
        case End(name) =>
          if tag == LocalName(name) then (Request(tag, args), evs[1..])
          else ParseMethod(tag, evs[1..], if tag == cur then "" else cur, args)
        case _ => ParseMethod(tag, evs[1..], cur, args);
      TailSuffix(evs, r.1);
      r
  }

  /** A suffix of the tail of `evs` is a suffix of `evs`. */
  lemma TailSuffix(evs: seq<Event>, t: seq<Event>)
    requires evs != [] && |t| <= |evs| - 1 && t == evs[1..][|evs| - 1 - |t|..]
    ensures t == evs[|evs| - |t|..]
  {
    assert evs[1..][|evs| - 1 - |t|..] == evs[|evs| - |t|..];
  }

  /**
   * `Reader::read_xml` on the events not yet consumed, with `steps` counting the
   * declaration, Envelope and Body seen so far and `acc` the requests collected.
   * An event out of order ends the parse with what has been collected.
   */
  function ParseRequests(evs: seq<Event>, steps: nat, acc: seq<Request>): seq<Request>
    decreases |evs|
  {
    if evs == [] then acc
    else match evs[0]
      case Decl =>
        if steps != 0 then acc else ParseRequests(evs[1..], steps + 1, acc)
      case Start(name) =>
        var tag := LocalName(name);
        if tag == "Envelope" then
          if steps != 1 then acc else ParseRequests(evs[1..], steps + 1, acc)
        else if tag == "Body" then
          if steps != 2 then acc else ParseRequests(evs[1..], steps + 1, acc)
        else if steps == 3 then
          var (request, rest) := ParseMethod(tag, evs[1..], "", map[]);
          ParseRequests(rest, steps, acc + [request])
        else
          ParseRequests(evs[1..], steps, acc)
      case _ => ParseRequests(evs[1..], steps, acc)
  }

  /** The requests `Reader::from` yields for a whole event sequence. */
  function Parse(evs: seq<Event>): seq<Request>
  {
    ParseRequests(evs, 0, [])
  }

  /** `Reader::read_method`: consumes events up to the end of the method element. */
  method ReadMethod(tag: string, xml: XmlStream) returns (request: Request)
    requires xml.Valid()
    modifies xml
    ensures xml.Valid()
    ensures (request, xml.Remaining()) == ParseMethod(tag, old(xml.Remaining()), "", map[])
  {
    request := Request(tag, map[]);
    var currArg := "";
    while true
      invariant xml.Valid()
      invariant request.methodName == tag
      invariant ParseMethod(tag, xml.Remaining(), currArg, request.arguments)
             == ParseMethod(tag, old(xml.Remaining()), "", map[])
      decreases |xml.events| - xml.pos
    {
      ghost var before := xml.Remaining();
      var evt := xml.Next();
      if evt.None? {
        break;
      }
      match evt.value {
        case Start(name) =>
          var (_, evttag) := TagName(name);
          currArg := evttag;
        case Text(content) =>
          if currArg == "" {
            break;
          }
          request := request.(arguments := request.arguments[currArg := content]);
        case End(name) =>
          var (_, evttag) := TagName(name);
          if tag == evttag {
            break;
          }
          if tag == currArg {
            currArg := "";
          }
        case _ =>
      }
    }
  }

  /** `Reader::read_xml`: the steps counter accepts declaration, Envelope, Body in order. */
  method ReadXml(xml: XmlStream) returns (requests: seq<Request>)
    requires xml.Valid()
    modifies xml
    ensures xml.Valid()
    ensures requests == ParseRequests(old(xml.Remaining()), 0, [])
  {
    requests := [];
    var steps: nat := 0;
    while true
      invariant xml.Valid()
      invariant ParseRequests(xml.Remaining(), steps, requests) == ParseRequests(old(xml.Remaining()), 0, [])
      decreases |xml.events| - xml.pos
    {
      var evt := xml.Next();
      if evt.None? {
        break;
      }
      match evt.value {
        case Decl =>
          if steps != 0 {
            break;
          }
          steps := steps + 1;
        case Start(name) =>
          var (_, tag) := TagName(name);
          if tag == "Envelope" {
            if steps != 1 {
              break;
            }
            steps := steps + 1;
          } else if tag == "Body" {
            if steps != 2 {
              break;
            }
            steps := steps + 1;
          } else if steps == 3 {
            var request := ReadMethod(tag, xml);
            requests := requests + [request];
          }
        case _ =>
      }
    }
  }

  /** `Reader::from` past the tokenizer: all requests of one event sequence. */
  method ReadEvents(events: seq<Event>) returns (requests: seq<Request>)
    ensures requests == Parse(events)
  {
    var xml := new XmlStream(events);
    requests := ReadXml(xml);
  }

  // ---------------------------------------------------------------------------
  // Properties of the reader

  /** The requests already collected are never lost: they are a prefix of the result. */
  lemma {:induction false} ParseKeepsCollected(evs: seq<Event>, steps: nat, acc: seq<Request>)
    ensures |acc| <= |ParseRequests(evs, steps, acc)|
    ensures ParseRequests(evs, steps, acc)[..|acc|] == acc
    decreases |evs|
  {
    if evs != [] {
      match evs[0]
      case Decl =>
        if steps == 0 { ParseKeepsCollected(evs[1..], steps + 1, acc); }
      case Start(name) =>
        var tag := LocalName(name);
        if tag == "Envelope" {
          if steps == 1 { ParseKeepsCollected(evs[1..], steps + 1, acc); }
        } else if tag == "Body" {
          if steps == 2 { ParseKeepsCollected(evs[1..], steps + 1, acc); }
        } else if steps == 3 {
          var (request, rest) := ParseMethod(tag, evs[1..], "", map[]);
          ParseKeepsCollected(rest, steps, acc + [request]);
          assert (acc + [request])[..|acc|] == acc;
        } else {
          ParseKeepsCollected(evs[1..], steps, acc);
        }
      case _ =>
        ParseKeepsCollected(evs[1..], steps, acc);
    }
  }

  /** True when some start tag of `evs` has local name `local`. */
  predicate HasStart(evs: seq<Event>, local: string)
  {
    exists i :: 0 <= i < |evs| && evs[i].Start? && LocalName(evs[i].name) == local
  }

  /** Before the Body has been entered, no request is produced until a Body start tag. */
  lemma {:induction false} NoBodyNoRequests(evs: seq<Event>, steps: nat, acc: seq<Request>)
    requires steps < 3
    requires !HasStart(evs, "Body")
    ensures ParseRequests(evs, steps, acc) == acc
    decreases |evs|
  {
    if evs != [] {
      assert !HasStart(evs[1..], "Body") by {
        forall i | 0 <= i < |evs[1..]| ensures !(evs[1..][i].Start? && LocalName(evs[1..][i].name) == "Body") {
          assert evs[1..][i] == evs[i + 1];
        }
      }
      match evs[0]
      case Decl =>
        if steps == 0 { NoBodyNoRequests(evs[1..], steps + 1, acc); }
      case Start(name) =>
        assert LocalName(name) != "Body";
        if LocalName(name) == "Envelope" {
          if steps == 1 { NoBodyNoRequests(evs[1..], steps + 1, acc); }
        } else {
          NoBodyNoRequests(evs[1..], steps, acc);
        }
      case _ =>
        NoBodyNoRequests(evs[1..], steps, acc);
    }
  }

  /** An input without a Body start tag yields no request, and reading never fails. */
  lemma MissingBodyGivesNothing(evs: seq<Event>)
    requires !HasStart(evs, "Body")
    ensures Parse(evs) == []
  {
    NoBodyNoRequests(evs, 0, []);
  }

  /** Without a declaration the steps counter never leaves 0, so nothing is produced. */
  lemma {:induction false} NoDeclNoRequests(evs: seq<Event>, acc: seq<Request>)
    requires forall i :: 0 <= i < |evs| ==> !evs[i].Decl?
    ensures ParseRequests(evs, 0, acc) == acc
    decreases |evs|
  {
    if evs != [] {
      assert forall i :: 0 <= i < |evs[1..]| ==> evs[1..][i] == evs[i + 1];
      NoDeclNoRequests(evs[1..], acc);
    }
  }

  /** A name the reader can produce as an operation name. */
  predicate OperationName(name: string)
  {
    name != "Envelope" && name != "Body" && ':' !in name
  }

  /**
   * Every request is named by the local name of a start tag that is neither
   * `Envelope` nor `Body` (those stop or advance the steps counter instead).
   */
  predicate AllOperationNames(rs: seq<Request>)
  {
    forall i :: 0 <= i < |rs| ==> OperationName(rs[i].methodName)
  }

  lemma {:induction false} ParsedOperationNames(evs: seq<Event>, steps: nat, acc: seq<Request>)
    requires AllOperationNames(acc)
    ensures AllOperationNames(ParseRequests(evs, steps, acc))
    decreases |evs|
  {
    if evs != [] {
      match evs[0]
      case Decl =>
        if steps == 0 { ParsedOperationNames(evs[1..], steps + 1, acc); }
      case Start(name) =>
        var tag := LocalName(name);
        if tag == "Envelope" {
          if steps == 1 { ParsedOperationNames(evs[1..], steps + 1, acc); }
        } else if tag == "Body" {
          if steps == 2 { ParsedOperationNames(evs[1..], steps + 1, acc); }
        } else if steps == 3 {
          var (request, rest) := ParseMethod(tag, evs[1..], "", map[]);
          assert AllOperationNames(acc + [request]) by {
            forall i | 0 <= i < |acc + [request]| ensures OperationName((acc + [request])[i].methodName) {
              if i < |acc| { assert (acc + [request])[i] == acc[i]; }
            }
          }
          ParsedOperationNames(rest, steps, acc + [request]);
        } else {
          ParsedOperationNames(evs[1..], steps, acc);
        }
      case _ =>
        ParsedOperationNames(evs[1..], steps, acc);
    }
  }

  // ---------------------------------------------------------------------------
  // Well-formed envelopes and the round trip through the reader

  /** One operation invocation: the operation name and its arguments in document order. */
  datatype Invocation = Invocation(operation: string, args: seq<(string, string)>)

  /** `<k>v</k>` for each argument, in order. */
  function ArgumentEvents(args: seq<(string, string)>): seq<Event>
  {
    if args == [] then [] else [Start(args[0].0), Text(args[0].1), End(args[0].0)] + ArgumentEvents(args[1..])
  }

  function InvocationEvents(inv: Invocation): seq<Event>
  {
    [Start(inv.operation)] + ArgumentEvents(inv.args) + [End(inv.operation)]
  }

  function BodyEvents(invs: seq<Invocation>): seq<Event>
  {
    if invs == [] then [] else InvocationEvents(invs[0]) + BodyEvents(invs[1..])
  }

  /** The qualified names of an Envelope and a Body start tag, whatever their namespace. */
  predicate EnvelopeTags(envelope: string, body: string)
  {
    LocalName(envelope) == "Envelope" && LocalName(body) == "Body"
  }

  /** The events of a declaration, an Envelope and a Body holding the invocations. */
  function EnvelopeEvents(envelope: string, body: string, invs: seq<Invocation>): seq<Event>
  {
    [Decl, Start(envelope), Start(body)] + BodyEvents(invs) + [End(body), End(envelope)]
  }

  /** The tags a SOAP 1.1 client writes satisfy `EnvelopeTags`. */
  lemma SoapEnvelopeTags()
    ensures EnvelopeTags("SOAP-ENV:Envelope", "SOAP-ENV:Body")
  {
    EnvelopeTagName();
    BodyTagName();
  }

  /**
   * The map after storing each argument in order, under the local name of its tag:
   * a repeated name keeps its last value.
   */
  function StoreAll(acc: map<string, string>, args: seq<(string, string)>): map<string, string>
    decreases |args|
  {
    if args == [] then acc else StoreAll(acc[LocalName(args[0].0) := args[0].1], args[1..])
  }

  /** The requests a list of invocations stands for, each named by its tag's local name. */
  function Requests(invs: seq<Invocation>): (rs: seq<Request>)
    ensures |rs| == |invs|
  {
    if invs == [] then []
    else [Request(LocalName(invs[0].operation), StoreAll(map[], invs[0].args))] + Requests(invs[1..])
  }

  /**
   * Every argument tag has a non-empty local name that differs from `tag`, the
   * operation's local name; the tags themselves may be qualified.
   */
  predicate PlainArguments(tag: string, args: seq<(string, string)>)
  {
    args == [] || (LocalName(args[0].0) != "" && LocalName(args[0].0) != tag && PlainArguments(tag, args[1..]))
  }

  /**
   * The operation tag, qualified or not, has a local name other than Envelope and Body,
   * and its argument tags are plain with respect to that local name.
   */
  predicate WellFormedInvocation(inv: Invocation)
  {
    && OperationName(LocalName(inv.operation))
    && PlainArguments(LocalName(inv.operation), inv.args)
  }

  /** Every invocation of the list is well formed. */
  predicate WellFormedBody(invs: seq<Invocation>)
  {
    invs == [] || (WellFormedInvocation(invs[0]) && WellFormedBody(invs[1..]))
  }

  /**
   * The argument events of a method whose end tag `close` has local name `tag`: each
   * text is stored under its argument's local name, and parsing stops after `close`.
   */
  lemma {:induction false} ParseArguments(tag: string, close: string, args: seq<(string, string)>, rest: seq<Event>, cur: string, acc: map<string, string>)
    requires LocalName(close) == tag
    requires PlainArguments(tag, args)
    ensures ParseMethod(tag, ArgumentEvents(args) + [End(close)] + rest, cur, acc) == (Request(tag, StoreAll(acc, args)), rest)
    decreases |args|
  {
    if args == [] {
      var evs := [End(close)] + rest;
      assert ArgumentEvents(args) + [End(close)] + rest == evs;
      assert evs[1..] == rest;
    } else {
      var (k0, v) := args[0];
      var k := LocalName(k0);
      var tail := ArgumentEvents(args[1..]) + [End(close)] + rest;
      var e2 := [End(k0)] + tail;
      var e1 := [Text(v)] + e2;
      assert ArgumentEvents(args) + [End(close)] + rest == [Start(k0)] + e1;
      MethodStartStep(tag, k0, e1, cur, acc);
      MethodTextStep(tag, v, e2, k, acc);
      MethodEndStep(tag, k0, tail, k, acc[k := v]);
      ParseArguments(tag, close, args[1..], rest, k, acc[k := v]);
    }
  }

  /** One invocation inside the Body adds its request and resumes after its end tag. */
  lemma ParseInvocation(inv: Invocation, after: seq<Event>, acc: seq<Request>)
    requires WellFormedInvocation(inv)
    ensures ParseRequests(InvocationEvents(inv) + after, 3, acc)
         == ParseRequests(after, 3, acc + [Request(LocalName(inv.operation), StoreAll(map[], inv.args))])
  {
    var m := LocalName(inv.operation);
    var inner := ArgumentEvents(inv.args) + [End(inv.operation)] + after;
    var evs := [Start(inv.operation)] + inner;
    assert InvocationEvents(inv) + after == evs;
    assert evs[1..] == inner;
    ParseArguments(m, inv.operation, inv.args, after, "", map[]);
  }

  lemma {:induction false} ParseBody(invs: seq<Invocation>, rest: seq<Event>, acc: seq<Request>)
    requires WellFormedBody(invs)
    ensures ParseRequests(BodyEvents(invs) + rest, 3, acc) == ParseRequests(rest, 3, acc + Requests(invs))
    decreases |invs|
  {
    if invs == [] {
      assert BodyEvents(invs) + rest == rest;
      assert acc + Requests(invs) == acc;
    } else {
      var after := BodyEvents(invs[1..]) + rest;
      assert BodyEvents(invs) + rest == InvocationEvents(invs[0]) + after;
      ParseInvocation(invs[0], after, acc);
      var request := Request(LocalName(invs[0].operation), StoreAll(map[], invs[0].args));
      ParseBody(invs[1..], rest, acc + [request]);
      assert Requests(invs) == [request] + Requests(invs[1..]);
      SeqAlgebra.ConcatAssoc(acc, [request], Requests(invs[1..]));
    }
  }

  /** The declaration, Envelope and Body start tags bring the steps counter to 3. */
  lemma EnterBody(envelope: string, body: string, inner: seq<Event>, acc: seq<Request>)
    requires EnvelopeTags(envelope, body)
    ensures ParseRequests([Decl, Start(envelope), Start(body)] + inner, 0, acc) == ParseRequests(inner, 3, acc)
  {
    var e0 := [Decl, Start(envelope), Start(body)] + inner;
    var e1 := [Start(envelope), Start(body)] + inner;
    var e2 := [Start(body)] + inner;
    assert e0[1..] == e1 && e1[1..] == e2 && e2[1..] == inner;
    assert ParseRequests(e2, 2, acc) == ParseRequests(inner, 3, acc);
    assert ParseRequests(e1, 1, acc) == ParseRequests(e2, 2, acc);
  }

  /** End tags inside the Body are skipped. */
  lemma SkipEnds(a: string, b: string, acc: seq<Request>)
    ensures ParseRequests([End(a), End(b)], 3, acc) == acc
  {
    var e := [End(a), End(b)];
    assert e[1..] == [End(b)] && e[1..][1..] == [];
    assert ParseRequests([End(b)], 3, acc) == acc;
  }

  /**
   * Round trip: reading a well-formed envelope yields exactly one request per
   * invocation, in document order, each with the operation's name and its
   * arguments (the last value of a repeated argument wins).
   */
  lemma EnvelopeRoundTrip(envelope: string, body: string, invs: seq<Invocation>)
    requires EnvelopeTags(envelope, body)
    requires WellFormedBody(invs)
    ensures Parse(EnvelopeEvents(envelope, body, invs)) == Requests(invs)
  {
    var tail := [End(body), End(envelope)];
    var inner := BodyEvents(invs) + tail;
    assert EnvelopeEvents(envelope, body, invs) == [Decl, Start(envelope), Start(body)] + inner;
    EnterBody(envelope, body, inner, []);
    ParseBody(invs, tail, []);
    assert [] + Requests(invs) == Requests(invs);
    SkipEnds(body, envelope, Requests(invs));
  }

  /**
   * The envelope `<?xml version="1.0"?><E><B><m:Add><a>2</a><b>3</b></m:Add></B></E>`,
   * with E and B any Envelope and Body tags, yields the one request Add (the
   * namespace prefix dropped) with arguments a = "2" and b = "3".
   */
  lemma AddExample(envelope: string, body: string)
    requires EnvelopeTags(envelope, body)
    ensures Parse([Decl, Start(envelope), Start(body),
                   Start("m:Add"), Start("a"), Text("2"), End("a"), Start("b"), Text("3"), End("b"), End("m:Add"),
                   End(body), End(envelope)])
         == [Request("Add", map["a" := "2", "b" := "3"])]
  {
    var invs := [Invocation("m:Add", [("a", "2"), ("b", "3")])];
    AddInvocation(invs);
    EnvelopeRoundTrip(envelope, body, invs);
    AddEnvelopeEvents(envelope, body, invs);
  }

  /** The events of the envelope of `AddExample`, one by one. */
  lemma AddEnvelopeEvents(envelope: string, body: string, invs: seq<Invocation>)
    requires BodyEvents(invs) == [Start("m:Add"), Start("a"), Text("2"), End("a"), Start("b"), Text("3"), End("b"), End("m:Add")]
    ensures EnvelopeEvents(envelope, body, invs)
         == [Decl, Start(envelope), Start(body),
             Start("m:Add"), Start("a"), Text("2"), End("a"), Start("b"), Text("3"), End("b"), End("m:Add"),
             End(body), End(envelope)]
  {
  }

  /** The invocation of `AddExample`: well formed, its events and its request. */
  lemma AddInvocation(invs: seq<Invocation>)
    requires invs == [Invocation("m:Add", [("a", "2"), ("b", "3")])]
    ensures WellFormedBody(invs)
    ensures BodyEvents(invs) == [Start("m:Add"), Start("a"), Text("2"), End("a"), Start("b"), Text("3"), End("b"), End("m:Add")]
    ensures Requests(invs) == [Request("Add", map["a" := "2", "b" := "3"])]
  {
    var op, args := invs[0].operation, invs[0].args;
    AddOperationName(op);
    AddArguments(args);
    assert WellFormedBody(invs) by {
      assert WellFormedInvocation(invs[0]);
      assert WellFormedBody(invs[1..]);
    }
    AddInvocationEvents(invs);
    assert Requests(invs[1..]) == [];
  }

  /** The operation tag of `AddExample` has local name `Add`. */
  lemma AddOperationName(op: string)
    requires op == "m:Add"
    ensures LocalName(op) == "Add"
  {
    TagNameJoin("m", "Add", "");
    assert "m" + ":" + "Add" == op;
  }

  /** The events of the invocation of `AddExample`, one by one. */
  lemma AddInvocationEvents(invs: seq<Invocation>)
    requires invs == [Invocation("m:Add", [("a", "2"), ("b", "3")])]
    ensures BodyEvents(invs) == [Start("m:Add"), Start("a"), Text("2"), End("a"), Start("b"), Text("3"), End("b"), End("m:Add")]
  {
    var op, args := invs[0].operation, invs[0].args;
    AddArguments(args);
    assert BodyEvents(invs) == InvocationEvents(invs[0]) by {
      assert BodyEvents(invs[1..]) == [];
    }
    var argEvents := [Start("a"), Text("2"), End("a"), Start("b"), Text("3"), End("b")];
    assert InvocationEvents(invs[0]) == [Start(op)] + argEvents + [End(op)];
  }

  /** The arguments of `AddExample`: their events, plainness and stored map. */
  lemma AddArguments(args: seq<(string, string)>)
    requires args == [("a", "2"), ("b", "3")]
    requires LocalName("a") == "a" && LocalName("b") == "b"
    ensures ArgumentEvents(args) == [Start("a"), Text("2"), End("a"), Start("b"), Text("3"), End("b")]
    ensures PlainArguments("Add", args)
    ensures StoreAll(map[], args) == map["a" := "2", "b" := "3"]
  {
    assert args[1..][1..] == [];
    assert ArgumentEvents(args[1..]) == [Start("b"), Text("3"), End("b")];
    assert PlainArguments("Add", args[1..]);
    assert StoreAll(map["a" := "2", "b" := "3"], args[1..][1..]) == map["a" := "2", "b" := "3"];
    assert StoreAll(map["a" := "2"], args[1..]) == map["a" := "2", "b" := "3"];
  }

  /** An empty Body yields no request, not an error. */
  lemma EmptyBodyGivesNothing(envelope: string, body: string)
    requires EnvelopeTags(envelope, body)
    ensures Parse([Decl, Start(envelope), Start(body), End(body), End(envelope)]) == []
  {
    EnvelopeRoundTrip(envelope, body, []);
    assert EnvelopeEvents(envelope, body, []) == [Decl, Start(envelope), Start(body), End(body), End(envelope)];
  }

  /** A second declaration stops the parse and returns what was collected, with no error. */
  lemma SecondDeclStops(envelope: string, body: string, invs: seq<Invocation>, rest: seq<Event>)
    requires EnvelopeTags(envelope, body)
    requires WellFormedBody(invs)
    ensures Parse([Decl, Start(envelope), Start(body)] + BodyEvents(invs) + [Decl] + rest) == Requests(invs)
  {
    var tail := [Decl] + rest;
    var inner := BodyEvents(invs) + tail;
    assert [Decl, Start(envelope), Start(body)] + BodyEvents(invs) + [Decl] + rest
        == [Decl, Start(envelope), Start(body)] + inner;
    EnterBody(envelope, body, inner, []);
    ParseBody(invs, tail, []);
    assert tail[1..] == rest;
  }

  /** A declaration anywhere but first stops the parse with what was collected. */
  lemma DeclOutOfOrderStops(rest: seq<Event>, steps: nat, acc: seq<Request>)
    requires steps != 0
    ensures ParseRequests([Decl] + rest, steps, acc) == acc
  {
  }

  /** An Envelope start tag anywhere but right after the declaration stops the parse. */
  lemma EnvelopeOutOfOrderStops(name: string, rest: seq<Event>, steps: nat, acc: seq<Request>)
    requires LocalName(name) == "Envelope" && steps != 1
    ensures ParseRequests([Start(name)] + rest, steps, acc) == acc
  {
  }

  /**
   * A Body start tag anywhere but right after the Envelope stops the parse: before
   * the Envelope, and also a Body nested inside the Body.
   */
  lemma BodyOutOfOrderStops(name: string, rest: seq<Event>, steps: nat, acc: seq<Request>)
    requires LocalName(name) == "Body" && steps != 2
    ensures ParseRequests([Start(name)] + rest, steps, acc) == acc
  {
  }

  /** A Body before the Envelope stops the parse: nothing is produced, and no error. */
  lemma BodyBeforeEnvelopeStops(body: string, rest: seq<Event>)
    requires LocalName(body) == "Body"
    ensures Parse([Decl, Start(body)] + rest) == []
  {
    var evs := [Decl, Start(body)] + rest;
    assert evs[1..] == [Start(body)] + rest;
    BodyOutOfOrderStops(body, rest, 1, []);
  }

  /** Two declarations in a row stop the parse with nothing collected. */
  lemma DoubleDeclStops(rest: seq<Event>)
    ensures Parse([Decl, Decl] + rest) == []
  {
    var evs := [Decl, Decl] + rest;
    assert evs[1..] == [Decl] + rest;
    DeclOutOfOrderStops(rest, 1, []);
  }

  /** Events the reader passes over before the Body: no declaration, Envelope or Body start tag. */
  predicate Skippable(pre: seq<Event>)
  {
    forall i :: 0 <= i < |pre| ==>
      !pre[i].Decl? && !(pre[i].Start? && (LocalName(pre[i].name) == "Envelope" || LocalName(pre[i].name) == "Body"))
  }

  /**
   * Before the Body, every other event is passed over without moving the steps
   * counter: a SOAP Header, for one, is skipped whole.
   */
  lemma {:induction false} SkipBeforeBody(pre: seq<Event>, rest: seq<Event>, steps: nat, acc: seq<Request>)
    requires steps < 3
    requires Skippable(pre)
    ensures ParseRequests(pre + rest, steps, acc) == ParseRequests(rest, steps, acc)
    decreases |pre|
  {
    if pre != [] {
      assert (pre + rest)[0] == pre[0];
      assert (pre + rest)[1..] == pre[1..] + rest;
      assert !pre[0].Decl?;
      assert pre[0].Start? ==> LocalName(pre[0].name) != "Envelope" && LocalName(pre[0].name) != "Body";
      assert ParseRequests(pre + rest, steps, acc) == ParseRequests(pre[1..] + rest, steps, acc);
      assert Skippable(pre[1..]) by {
        forall i | 0 <= i < |pre[1..]| ensures pre[1..][i] == pre[i + 1] { }
      }
      SkipBeforeBody(pre[1..], rest, steps, acc);
    } else {
      assert pre + rest == rest;
    }
  }

  /** An envelope with a header before its Body reads back as exactly the Body's requests. */
  lemma HeaderRoundTrip(envelope: string, body: string, header: seq<Event>, invs: seq<Invocation>)
    requires EnvelopeTags(envelope, body)
    requires Skippable(header)
    requires WellFormedBody(invs)
    ensures Parse([Decl, Start(envelope)] + header + [Start(body)] + BodyEvents(invs) + [End(body), End(envelope)])
         == Requests(invs)
  {
    var tail := [End(body), End(envelope)];
    var inner := BodyEvents(invs) + tail;
    var afterHeader := [Start(body)] + inner;
    var evs := [Decl, Start(envelope)] + header + [Start(body)] + BodyEvents(invs) + [End(body), End(envelope)];
    assert evs == [Decl, Start(envelope)] + (header + afterHeader);
    assert evs[1..][1..] == header + afterHeader;
    assert ParseRequests(evs, 0, []) == ParseRequests(header + afterHeader, 2, []);
    SkipBeforeBody(header, afterHeader, 2, []);
    assert afterHeader[1..] == inner;
    ParseBody(invs, tail, []);
    assert [] + Requests(invs) == Requests(invs);
    SkipEnds(body, envelope, Requests(invs));
  }

  /** A repeated argument keeps its last value. */
  lemma RepeatedArgumentLastWins(rest: seq<Event>)
    ensures ParseMethod("m", [Start("a"), Text("1"), End("a"), Start("a"), Text("2"), End("a"), End("m")] + rest, "", map[])
         == (Request("m", map["a" := "2"]), rest)
  {
    var args := [("a", "1"), ("a", "2")];
    LocalNamePlain("a");
    LocalNamePlain("m");
    assert ArgumentEvents(args[1..]) == [Start("a"), Text("2"), End("a")];
    assert ArgumentEvents(args) + [End("m")] + rest
        == [Start("a"), Text("1"), End("a"), Start("a"), Text("2"), End("a"), End("m")] + rest;
    assert PlainArguments("m", args[1..][1..]);
    assert PlainArguments("m", args[1..]);
    ParseArguments("m", "m", args, rest, "", map[]);
    assert StoreAll(map["a" := "2"], args[1..][1..]) == map["a" := "2"];
    assert StoreAll(map["a" := "1"], args[1..]) == map["a" := "2"];
  }

  /** A start tag inside a method moves the cursor to its local name. */
  lemma MethodStartStep(tag: string, name: string, rest: seq<Event>, cur: string, args: map<string, string>)
    ensures ParseMethod(tag, [Start(name)] + rest, cur, args) == ParseMethod(tag, rest, LocalName(name), args)
  {
    assert ([Start(name)] + rest)[1..] == rest;
  }

  /** A text event under a current argument stores its content there. */
  lemma MethodTextStep(tag: string, content: string, rest: seq<Event>, cur: string, args: map<string, string>)
    requires cur != ""
    ensures ParseMethod(tag, [Text(content)] + rest, cur, args) == ParseMethod(tag, rest, cur, args[cur := content])
  {
    assert ([Text(content)] + rest)[1..] == rest;
  }

  /** An end tag other than the method's clears the cursor only if it names the method. */
  lemma MethodEndStep(tag: string, name: string, rest: seq<Event>, cur: string, args: map<string, string>)
    requires tag != LocalName(name)
    ensures ParseMethod(tag, [End(name)] + rest, cur, args) == ParseMethod(tag, rest, if tag == cur then "" else cur, args)
  {
    assert ([End(name)] + rest)[1..] == rest;
  }

  /**
   * The cursor is cleared only when it equals the operation name, so after `</a>` it
   * still names `a`: text that follows is stored under `a`, replacing its value.
   */
  lemma CursorSurvivesArgumentEnd(rest: seq<Event>)
    ensures ParseMethod("m", [Start("a"), Text("1"), End("a"), Text("2"), End("m")] + rest, "", map[])
         == (Request("m", map["a" := "2"]), rest)
  {
    LocalNamePlain("a");
    LocalNamePlain("m");
    var e4 := [End("m")] + rest;
    var e3 := [Text("2")] + e4;
    var e2 := [End("a")] + e3;
    var e1 := [Text("1")] + e2;
    assert [Start("a")] + e1 == [Start("a"), Text("1"), End("a"), Text("2"), End("m")] + rest;
    MethodStartStep("m", "a", e1, "", map[]);
    MethodTextStep("m", "1", e2, "a", map[]);
    MethodEndStep("m", "a", e3, "a", map["a" := "1"]);
    MethodTextStep("m", "2", e4, "a", map["a" := "1"]);
    assert e4[1..] == rest;
    assert map["a" := "1"]["a" := "2"] == map["a" := "2"];
  }

  /** A text event with no current argument ends the method. */
  lemma TextWithoutArgumentEndsMethod(tag: string, content: string, rest: seq<Event>, args: map<string, string>)
    ensures ParseMethod(tag, [Text(content)] + rest, "", args) == (Request(tag, args), rest)
  {
    assert ([Text(content)] + rest)[1..] == rest;
  }
}
