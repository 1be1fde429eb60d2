/**
  The objects of boto.cloudfront that a parse fills in, as classes whose
  startElement and endElement update their fields, proved against the handler
  functions of CloudFrontConfig. `extra` holds what setattr stores for tags a
  class does not know.
*/
module CloudFrontNodes {
  import opened Wrappers
  import opened Text
  import opened Numerals
  import opened SaxHandler
  import opened Markup
  import opened CloudFrontConfig

  class TrustedSignersNode {
    var signers: seq<string>

    constructor ()
      ensures signers == []
    {
      signers := [];
    }

    method EndElement(name: string, value: string)
      modifies this
      ensures signers == EndInSigners(old(signers), name, value)
    {
      if name == "Self" {
        signers := signers + [name];
      } else if name == "AwsAccountNumber" {
        signers := signers + [value];
      }
    }
  }

  class LoggingNode {
    var bucket: string
    var prefix: string
    var extra: map<string, string>

    constructor ()
      ensures bucket == "" && prefix == "" && extra == map[]
    {
      bucket, prefix, extra := "", "", map[];
    }

    ghost function View(): LoggingInfo
      reads this
    {
      LoggingInfo(bucket, prefix)
    }

    method EndElement(name: string, value: string)
      modifies this
      ensures View() == if name == "Bucket" then old(View()).(bucket := value)
                        else if name == "Prefix" then old(View()).(prefix := value) else old(View())
      ensures extra == if name == "Bucket" || name == "Prefix" then old(extra) else old(extra)[name := value]
    {
      if name == "Bucket" {
        bucket := value;
      } else if name == "Prefix" {
        prefix := value;
      } else {
        extra := extra[name := value];
      }
    }
  }

  // S3Origin and CustomOrigin; `custom` tells them apart.
  class OriginNode {
    const custom: bool
    var dnsName: Option<string>
    var identity: Option<Identity>
    var httpPort: Port
    var httpsPort: Port
    var policy: Option<string>
    var extra: map<string, string>

    constructor (custom: bool)
      ensures this.custom == custom && extra == map[]
      ensures View() == if custom then CustomOrigin(None, Num(80), Num(443), None) else S3Origin(None, None)
    {
      this.custom := custom;
      dnsName, identity, policy := None, None, None;
      httpPort, httpsPort, extra := Num(80), Num(443), map[];
    }

    ghost function View(): Origin
      reads this
    {
      if custom then CustomOrigin(dnsName, httpPort, httpsPort, policy) else S3Origin(dnsName, identity)
    }

    // endElement: a port that is not a numeral is kept as the text it is.
    method EndElement(name: string, value: string)
      modifies this
      ensures match EndInOrigin(old(View()), name, value)
        case Some(o) => View() == o && extra == old(extra)
        case None => View() == old(View()) && extra == old(extra)[name := value]
    {
      if name == "DNSName" {
        dnsName := Some(value);
      } else if !custom && name == "OriginAccessIdentity" {
        identity := Some(Uri(value));
      } else if custom && name == "HTTPPort" {
        var n := ParseInt(value);
        httpPort := if n.Some? then Num(n.value) else Raw(value);
      } else if custom && name == "HTTPSPort" {
        var n := ParseInt(value);
        httpsPort := if n.Some? then Num(n.value) else Raw(value);
      } else if custom && name == "OriginProtocolPolicy" {
        policy := Some(value);
      } else {
        extra := extra[name := value];
      }
    }
  }

  // What startElement returns.
  datatype Child = Signers(s: TrustedSignersNode) | Logging(l: LoggingNode) | OriginChild(o: OriginNode)

  class DistributionConfigNode {
    var origin: OriginNode?
    var enabled: bool
    var callerReference: string
    var cnames: seq<string>
    var comment: string
    var trustedSigners: TrustedSignersNode?
    var logging: LoggingNode?
    var defaultRootObject: Option<string>
    var extra: map<string, string>

    // A config made with no arguments but the UUID it makes up.
    constructor (uuid: string)
      ensures View() == NewConfig(uuid) && extra == map[]
    {
      origin, trustedSigners, logging := null, null, null;
      enabled, callerReference, cnames, comment := false, uuid, [], "";
      defaultRootObject, extra := None, map[];
    }

    ghost function View(): Config
      reads this, origin, trustedSigners, logging
    {
      Config(if origin == null then None else Some(origin.View()), enabled, callerReference, cnames, comment,
             if trustedSigners == null then None else Some(trustedSigners.signers),
             if logging == null then None else Some(logging.View()), defaultRootObject)
    }

    // The state the handler functions of CloudFrontConfig work on.
    ghost function AsParsed(): Parsed
      reads this, origin, trustedSigners, logging
    {
      Parsed(View(), map[])
    }

    method StartElement(name: string) returns (child: Option<Child>)
      modifies this
      ensures View() == StartNode(old(AsParsed()), ConfigNode, name).0.config && extra == old(extra)
      ensures match StartNode(old(AsParsed()), ConfigNode, name).1
        case None => child.None?
        case Some((_, node)) => child.Some? && Refers(child.value, node)
      ensures match child
        case None => true
        case Some(Signers(s)) => fresh(s)
        case Some(Logging(l)) => fresh(l)
        case Some(OriginChild(o)) => fresh(o)
    {
      if name == "TrustedSigners" {
        trustedSigners := new TrustedSignersNode();
        return Some(Signers(trustedSigners));
      } else if name == "Logging" {
        logging := new LoggingNode();
        return Some(Logging(logging));
      } else if name == "S3Origin" {
        origin := new OriginNode(false);
        return Some(OriginChild(origin));
      } else if name == "CustomOrigin" {
        origin := new OriginNode(true);
        return Some(OriginChild(origin));
      } else {
        return None;
      }
    }

    // The child is the object the config holds, not a copy of it.
    ghost predicate Refers(child: Child, node: NodeRef)
      reads this
    {
      match child
      case Signers(s) => node == SignersNode && s == trustedSigners
      case Logging(l) => node == NodeRef.LoggingNode && l == logging
      case OriginChild(o) => node == NodeRef.OriginNode && o == origin
    }

    method EndElement(name: string, value: string)
      modifies this
      ensures View() == EndInConfig(old(AsParsed()), name, value).config
      ensures extra == if name in ["CNAME", "Comment", "Enabled", "CallerReference", "DefaultRootObject"] then old(extra)
                       else old(extra)[name := value]
    {
      if name == "CNAME" {
        cnames := cnames + [value];
      } else if name == "Comment" {
        comment := value;
      } else if name == "Enabled" {
        if Lower(value) == "true" {
          enabled := true;
        } else {
          enabled := false;
        }
      } else if name == "CallerReference" {
        callerReference := value;
      } else if name == "DefaultRootObject" {
        defaultRootObject := Some(value);
      } else {
        extra := extra[name := value];
      }
    }
  }

  // An event that reaches a child changes the config as EndNode says.
  method EndInChild(config: DistributionConfigNode, child: Child, ghost node: NodeRef, name: string, value: string)
    requires config.Refers(child, node)
    modifies match child case Signers(s) => {s as object} case Logging(l) => {l as object} case OriginChild(o) => {o as object}
    ensures config.View() == EndNode(old(config.AsParsed()), node, name, value).config
  {
    match child
    case Signers(s) => s.EndElement(name, value);
    case Logging(l) => l.EndElement(name, value);
    case OriginChild(o) => o.EndElement(name, value);
  }

  // ---- the handler over these objects ----

  // A handler's stack: None is the config, Some the child it made.
  type Stack = seq<(string, Option<Child>)>

  // The stack holds the config and, above it, at most the child it now refers to.
  ghost predicate Matches(config: DistributionConfigNode, nodes: Stack, refs: seq<(string, NodeRef)>)
    reads config
  {
    && |nodes| == |refs| <= 2
    && (forall i :: 0 <= i < |nodes| ==> nodes[i].0 == refs[i].0)
    && (|nodes| > 0 ==> nodes[0].1 == None && refs[0].1 == ConfigNode)
    && (|nodes| > 1 ==> nodes[1].1.Some? && config.Refers(nodes[1].1.value, refs[1].1))
  }

  // The handler's state, over the config's view.
  ghost predicate Follows(s: State<Parsed, NodeRef>, config: DistributionConfigNode, nodes: Stack, text: string)
    reads config, config.origin, config.trustedSigners, config.logging
  {
    s.Running? && s.heap.config == config.View() && s.text == text && Matches(config, nodes, s.nodes)
  }

  ghost function Objects(child: Child): set<object> {
    match child
    case Signers(s) => {s}
    case Logging(l) => {l}
    case OriginChild(o) => {o}
  }

  ghost function TopObjects(nodes: Stack): set<object> {
    if |nodes| > 1 && nodes[1].1.Some? then Objects(nodes[1].1.value) else {}
  }

  // What the handlers do to a config does not depend on the unknown tags.
  lemma SameStart(h: Parsed, h': Parsed, node: NodeRef, name: string)
    requires h.config == h'.config
    ensures StartNode(h, node, name).0.config == StartNode(h', node, name).0.config
    ensures StartNode(h, node, name).1 == StartNode(h', node, name).1
  {}

  lemma SameEnd(h: Parsed, h': Parsed, node: NodeRef, name: string, value: string)
    requires h.config == h'.config
    ensures EndNode(h, node, name, value).config == EndNode(h', node, name, value).config
  {}

  // startElement of the node on top of the stack.
  method StartInTop(config: DistributionConfigNode, nodes: Stack, name: string, ghost h: Parsed, ghost refs: seq<(string, NodeRef)>)
    returns (child: Option<Child>)
    requires nodes != [] && h.config == config.View() && Matches(config, nodes, refs)
    modifies config
    ensures config.View() == StartNode(h, refs[|nodes| - 1].1, name).0.config
    ensures match StartNode(h, refs[|nodes| - 1].1, name).1
      case None => child.None? && Matches(config, nodes, refs)
      case Some((tag, node)) => child.Some? && |nodes| == 1 && tag == name && config.Refers(child.value, node) && fresh(Objects(child.value))
  {
    SameStart(h, config.AsParsed(), refs[|nodes| - 1].1, name);
    child := None;
    if nodes[|nodes| - 1].1.None? {
      child := config.StartElement(name);
    }
  }

  method HandleStart(config: DistributionConfigNode, nodes: Stack, name: string, ghost s: State<Parsed, NodeRef>)
    returns (nodes': Stack)
    requires nodes != [] && s.Running? && Follows(s, config, nodes, s.text)
    modifies config
    ensures Follows(Step(Handlers(), s, Start(name)), config, nodes', "")
    ensures fresh(TopObjects(nodes') - TopObjects(nodes))
  {
    var child := StartInTop(config, nodes, name, s.heap, s.nodes);
    nodes' := if child.Some? then nodes + [(name, child)] else nodes;
  }

  // endElement of the node on top of the stack.
  method EndInTop(config: DistributionConfigNode, nodes: Stack, name: string, text: string, ghost s: State<Parsed, NodeRef>)
    requires nodes != [] && Follows(s, config, nodes, text)
    modifies config, TopObjects(nodes)
    ensures config.View() == EndNode(s.heap, s.nodes[|nodes| - 1].1, name, text).config
    ensures Matches(config, nodes, s.nodes)
  {
    SameEnd(s.heap, config.AsParsed(), s.nodes[|nodes| - 1].1, name, text);
    match nodes[|nodes| - 1].1 {
      case None => config.EndElement(name, text);
      case Some(child) => EndInChild(config, child, s.nodes[1].1, name, text);
    }
  }

  method HandleEnd(config: DistributionConfigNode, nodes: Stack, name: string, text: string, ghost s: State<Parsed, NodeRef>)
    returns (nodes': Stack)
    requires nodes != [] && Follows(s, config, nodes, text)
    modifies config, TopObjects(nodes)
    ensures Follows(Step(Handlers(), s, End(name)), config, nodes', "")
    ensures TopObjects(nodes') <= TopObjects(nodes)
  {
    EndInTop(config, nodes, name, text, s);
    nodes' := if nodes[|nodes| - 1].0 == name then nodes[..|nodes| - 1] else nodes;
  }

  // One event. An empty stack raises IndexError, except on text.
  method Handle(config: DistributionConfigNode, nodes: Stack, text: string, e: Event, ghost s: State<Parsed, NodeRef>)
    returns (nodes': Stack, text': string, ok: bool)
    requires Follows(s, config, nodes, text)
    modifies config, TopObjects(nodes)
    ensures ok <==> Step(Handlers(), s, e).Running?
    ensures ok ==> Follows(Step(Handlers(), s, e), config, nodes', text')
    ensures fresh(TopObjects(nodes') - TopObjects(nodes))
  {
    nodes', text', ok := nodes, text, true;
    if e.Chars? {
      text' := text + e.text;
    } else if nodes == [] {
      ok := false;
    } else if e.Start? {
      nodes' := HandleStart(config, nodes, e.name, s.(text := text));
      text' := "";
    } else {
      nodes' := HandleEnd(config, nodes, e.name, text, s);
      text' := "";
    }
  }

  // A parse into these objects: it fails exactly when the stack machine does,
  // and otherwise the config reads as what the machine builds.
  method ParseEvents(events: seq<Event>, uuid: string) returns (config: DistributionConfigNode, ok: bool)
    ensures ok <==> Run(Handlers(), InitialState(uuid), events).Running?
    ensures ok ==> config.View() == Run(Handlers(), InitialState(uuid), events).heap.config
  {
    config := new DistributionConfigNode(uuid);
    var nodes: Stack, text := [("root", None)], "";
    ghost var s := InitialState(uuid);
    assert events[0..] == events;
    for i := 0 to |events|
      invariant fresh(config) && fresh(TopObjects(nodes))
      invariant Follows(s, config, nodes, text)
      invariant Run(Handlers(), InitialState(uuid), events) == Run(Handlers(), s, events[i..])
    {
      RunNext(s, events, i);
      ghost var s' := Step(Handlers(), s, events[i]);
      nodes, text, ok := Handle(config, nodes, text, events[i], s);
      if !ok {
        Crashed<Parsed, NodeRef>(Handlers(), events[i + 1..]);
        return;
      }
      s := s';
    }
    ok := true;
  }

  lemma RunNext(s: State<Parsed, NodeRef>, events: seq<Event>, i: nat)
    requires i < |events|
    ensures Run(Handlers(), s, events[i..]) == Run(Handlers(), Step(Handlers(), s, events[i]), events[i + 1..])
  {
    assert events[i..][0] == events[i] && events[i..][1..] == events[i + 1..];
  }

  // A parse of a text into these objects.
  method ParseText(xml: string, uuid: string) returns (config: DistributionConfigNode, ok: bool)
    ensures ok <==> ParseResult(xml, uuid).Some?
    ensures ok ==> config.View() == ParseResult(xml, uuid).value
  {
    var events := Lex(xml, 0);
    if events.None? {
      config := new DistributionConfigNode(uuid);
      return config, false;
    }
    config, ok := ParseEvents(events.value, uuid);
  }
}
