/**
  boto.cloudfront: a DistributionConfig, the XML it prints, and the event
  handlers that read that XML back through boto.handler.XmlHandler.
*/
module CloudFrontConfig {
  import opened Wrappers
  import opened Text
  import opened Numerals
  import opened SaxHandler
  import opened Markup

  // An origin access identity is given as its URI or as an object with an id.
  datatype Identity = Uri(uri: string) | IdentityObject(id: string)

  // int(value), or the value itself when it is not a numeral.
  datatype Port = Num(n: int) | Raw(s: string)

  datatype Origin =
    | S3Origin(dnsName: Option<string>, identity: Option<Identity>)
    | CustomOrigin(dnsName: Option<string>, httpPort: Port, httpsPort: Port, policy: Option<string>)

  datatype LoggingInfo = LoggingInfo(bucket: string, prefix: string)

  datatype Config = Config(
    origin: Option<Origin>,
    enabled: bool,
    callerReference: string,
    cnames: seq<string>,
    comment: string,
    trustedSigners: Option<seq<string>>,
    logging: Option<LoggingInfo>,
    defaultRootObject: Option<string>)

  // A new config; its caller reference is a random UUID.
  function NewConfig(uuid: string): Config {
    Config(None, false, uuid, [], "", None, None, None)
  }

  // ---- printing ----

  const DECLARATION := "?xml version=\"1.0\"" + " encoding=\"UTF-8\"?"
  const NAMESPACE := " xmlns=\"http://cloudfront" + ".amazonaws.com/doc/" + "2010-07-15/\""
  const ROOT_TAG := "DistributionConfig"

  // '%s' % value
  function Formatted(value: Option<string>): string {
    if value.Some? then value.value else "None"
  }

  function IdentityText(i: Identity): string {
    match i
    case Uri(uri) => uri
    case IdentityObject(id) => "origin-access-identity/cloudfront/" + id
  }

  // One indented element on a line of its own.
  function Line(indent: string, tag: string, inner: seq<Xml>): seq<Xml> {
    [Xml.Text(indent), Elem(tag, inner), Xml.Text("\n")]
  }

  function Leaf(indent: string, tag: string, value: string): seq<Xml> {
    Line(indent, tag, [Xml.Text(value)])
  }

  function PortText(p: Port): string {
    if p.Num? then Decimal(p.n) else p.s
  }

  function IdentityXml(identity: Option<Identity>): seq<Xml> {
    if identity.Some? && identity.value != Uri("")
    then Leaf("    ", "OriginAccessIdentity", IdentityText(identity.value)) else []
  }

  function OriginXml(o: Origin): seq<Xml> {
    match o
    case S3Origin(dnsName, identity) =>
      Line("  ", "S3Origin", [Xml.Text("\n")]
        + Leaf("    ", "DNSName", Formatted(dnsName))
        + IdentityXml(identity)
        + [Xml.Text("  ")])
    case CustomOrigin(dnsName, httpPort, httpsPort, policy) =>
      Line("  ", "CustomOrigin", [Xml.Text("\n")]
        + Leaf("    ", "DNSName", Formatted(dnsName))
        + Leaf("    ", "HTTPPort", PortText(httpPort))
        + Leaf("    ", "HTTPSPort", PortText(httpsPort))
        + Leaf("    ", "OriginProtocolPolicy", Formatted(policy))
        + [Xml.Text("  ")])
  }

  function CnamesXml(cnames: seq<string>): seq<Xml> {
    if cnames == [] then [] else CnamesXml(cnames[..|cnames| - 1]) + Leaf("  ", "CNAME", cnames[|cnames| - 1])
  }

  function SignerTag(signer: string): string {
    if signer == "Self" then "Self" else "AwsAccountNumber"
  }

  function SignerText(signer: string): string {
    if signer == "Self" then "" else signer
  }

  function SignerXml(signer: string): seq<Xml> {
    Leaf("  ", SignerTag(signer), SignerText(signer))
  }

  function SignersXml(signers: seq<string>): seq<Xml> {
    if signers == [] then [] else SignersXml(signers[..|signers| - 1]) + SignerXml(signers[|signers| - 1])
  }

  function EnabledText(enabled: bool): string {
    if enabled then "true" else "false"
  }

  function TrustedSignersXml(signers: seq<string>): seq<Xml> {
    Line("", "TrustedSigners", [Xml.Text("\n")] + SignersXml(signers))
  }

  function LoggingXml(l: LoggingInfo): seq<Xml> {
    Line("", "Logging", [Xml.Text("\n")] + Leaf("  ", "Bucket", l.bucket) + Leaf("  ", "Prefix", l.prefix))
  }

  function CommentXml(comment: string): seq<Xml> {
    if comment != "" then Leaf("  ", "Comment", comment) else []
  }

  function OptionalSigners(signers: Option<seq<string>>): seq<Xml> {
    if signers.Some? && signers.value != [] then TrustedSignersXml(signers.value) else []
  }

  function OptionalLogging(logging: Option<LoggingInfo>): seq<Xml> {
    if logging.Some? then LoggingXml(logging.value) else []
  }

  function OptionalRoot(root: Option<string>): seq<Xml> {
    if root.Some? && root.value != "" then Leaf("", "DefaultRootObject", root.value) else []
  }

  function Scalars(c: Config): seq<Xml> {
    Leaf("  ", "CallerReference", c.callerReference)
    + CnamesXml(c.cnames)
    + CommentXml(c.comment)
    + Leaf("  ", "Enabled", EnabledText(c.enabled))
  }

  function Optional(c: Config): seq<Xml> {
    OptionalSigners(c.trustedSigners) + OptionalLogging(c.logging) + OptionalRoot(c.defaultRootObject)
  }

  // The content of the root element.
  function Body(c: Config): seq<Xml> {
    [Xml.Text("\n")] + (if c.origin.Some? then OriginXml(c.origin.value) else []) + Scalars(c) + Optional(c)
  }

  // '%d' % port raises TypeError for a port that is not an int.
  predicate Formattable(c: Config) {
    c.origin.Some? && c.origin.value.CustomOrigin? ==>
      c.origin.value.httpPort.Num? && c.origin.value.httpsPort.Num?
  }

  // An XML declaration, then one root element with attributes.
  function Wrapped(declaration: string, tag: string, attributes: string, content: string): string {
    "<" + declaration + ">" + "\n" + "<" + tag + attributes + ">" + content + "</" + tag + ">" + "\n"
  }

  function Document(c: Config): string {
    Wrapped(DECLARATION, ROOT_TAG, NAMESPACE, Render(Body(c)))
  }

  lemma RenderLine(indent: string, tag: string, inner: seq<Xml>)
    ensures Render(Line(indent, tag, inner)) == indent + "<" + tag + ">" + Render(inner) + "</" + tag + ">\n"
  {
    var l := Line(indent, tag, inner);
    assert l[1..] == [Elem(tag, inner), Xml.Text("\n")];
    assert l[1..][1..] == [Xml.Text("\n")];
    assert l[1..][1..][1..] == [];
    assert Render([Xml.Text("\n")]) == "\n";
    assert Render(l[1..]) == RenderOne(Elem(tag, inner)) + "\n";
    assert "</" + tag + ">" + "\n" == "</" + tag + ">\n";
  }

  // ---- the text, tag by tag ----

  function Tagged(indent: string, tag: string, text: string): string {
    indent + "<" + tag + ">" + text + "</" + tag + ">\n"
  }

  function PrintedOrigin(o: Origin): string {
    match o
    case S3Origin(dnsName, identity) =>
      Tagged("  ", "S3Origin", "\n"
        + Tagged("    ", "DNSName", if dnsName == None then "None" else dnsName.value)
        + PrintedIdentity(identity)
        + "  ")
    case CustomOrigin(dnsName, httpPort, httpsPort, policy) =>
      Tagged("  ", "CustomOrigin", "\n"
        + Tagged("    ", "DNSName", if dnsName == None then "None" else dnsName.value)
        + Tagged("    ", "HTTPPort", PortText(httpPort))
        + Tagged("    ", "HTTPSPort", PortText(httpsPort))
        + Tagged("    ", "OriginProtocolPolicy", if policy == None then "None" else policy.value)
        + "  ")
  }

  function PrintedIdentity(identity: Option<Identity>): string {
    match identity
    case None => ""
    case Some(Uri(uri)) => if uri == "" then "" else Tagged("    ", "OriginAccessIdentity", uri)
    case Some(IdentityObject(id)) =>
      Tagged("    ", "OriginAccessIdentity", "origin-access-identity/cloudfront/" + id)
  }

  function PrintedCnames(cnames: seq<string>): string {
    if cnames == [] then ""
    else PrintedCnames(cnames[..|cnames| - 1]) + Tagged("  ", "CNAME", cnames[|cnames| - 1])
  }

  function PrintedSigners(signers: seq<string>): string {
    if signers == [] then ""
    else
      var signer := signers[|signers| - 1];
      PrintedSigners(signers[..|signers| - 1])
      + if signer == "Self" then Tagged("  ", "Self", "") else Tagged("  ", "AwsAccountNumber", signer)
  }

  function PrintedScalars(c: Config): string {
    Tagged("  ", "CallerReference", c.callerReference)
    + PrintedCnames(c.cnames)
    + (if c.comment == "" then "" else Tagged("  ", "Comment", c.comment))
    + Tagged("  ", "Enabled", if c.enabled then "true" else "false")
  }

  function PrintedOptional(c: Config): string {
    PrintedTrusted(c.trustedSigners) + PrintedLogging(c.logging) + PrintedRoot(c.defaultRootObject)
  }

  function PrintedTrusted(signers: Option<seq<string>>): string {
    if signers.None? || signers.value == [] then ""
    else Tagged("", "TrustedSigners", "\n" + PrintedSigners(signers.value))
  }

  function PrintedLogging(logging: Option<LoggingInfo>): string {
    match logging
    case None => ""
    case Some(l) => Tagged("", "Logging", "\n" + Tagged("  ", "Bucket", l.bucket) + Tagged("  ", "Prefix", l.prefix))
  }

  function PrintedRoot(root: Option<string>): string {
    if root.None? || root.value == "" then "" else Tagged("", "DefaultRootObject", root.value)
  }

  lemma LeafPrinted(indent: string, tag: string, value: string)
    ensures Render(Leaf(indent, tag, value)) == Tagged(indent, tag, value)
  {
    RenderLine(indent, tag, [Xml.Text(value)]);
    RenderText(value);
  }

  lemma IdentityPrinted(identity: Option<Identity>)
    ensures Render(IdentityXml(identity)) == PrintedIdentity(identity)
  {
    if identity.Some? {
      LeafPrinted("    ", "OriginAccessIdentity", IdentityText(identity.value));
    }
  }

  // Rendering is appending, one leaf at a time.
  lemma LeafAfter(xs: seq<Xml>, s: string, indent: string, tag: string, value: string)
    requires Render(xs) == s
    ensures Render(xs + Leaf(indent, tag, value)) == s + Tagged(indent, tag, value)
  {
    LeafPrinted(indent, tag, value);
    RenderAppend(xs, Leaf(indent, tag, value));
  }

  lemma S3OriginPrinted(dnsName: Option<string>, identity: Option<Identity>)
    ensures Render(OriginXml(S3Origin(dnsName, identity))) == PrintedOrigin(S3Origin(dnsName, identity))
  {
    var start, end := [Xml.Text("\n")], [Xml.Text("  ")];
    var xs := start + Leaf("    ", "DNSName", Formatted(dnsName));
    RenderText("\n");
    RenderText("  ");
    LeafAfter(start, "\n", "    ", "DNSName", Formatted(dnsName));
    IdentityPrinted(identity);
    RenderAppend(xs, IdentityXml(identity));
    RenderAppend(xs + IdentityXml(identity), end);
    RenderLine("  ", "S3Origin", xs + IdentityXml(identity) + end);
  }

  lemma CustomOriginPrinted(dnsName: Option<string>, httpPort: Port, httpsPort: Port, policy: Option<string>)
    ensures var o := CustomOrigin(dnsName, httpPort, httpsPort, policy); Render(OriginXml(o)) == PrintedOrigin(o)
  {
    var start, end := [Xml.Text("\n")], [Xml.Text("  ")];
    RenderText("\n");
    RenderText("  ");
    LeafAfter(start, "\n", "    ", "DNSName", Formatted(dnsName));
    var xs := start + Leaf("    ", "DNSName", Formatted(dnsName));
    LeafAfter(xs, Render(xs), "    ", "HTTPPort", PortText(httpPort));
    var ys := xs + Leaf("    ", "HTTPPort", PortText(httpPort));
    LeafAfter(ys, Render(ys), "    ", "HTTPSPort", PortText(httpsPort));
    var zs := ys + Leaf("    ", "HTTPSPort", PortText(httpsPort));
    LeafAfter(zs, Render(zs), "    ", "OriginProtocolPolicy", Formatted(policy));
    var all := zs + Leaf("    ", "OriginProtocolPolicy", Formatted(policy));
    RenderAppend(all, end);
    RenderLine("  ", "CustomOrigin", all + end);
  }

  lemma {:induction false} CnamesPrinted(cnames: seq<string>)
    ensures Render(CnamesXml(cnames)) == PrintedCnames(cnames)
  {
    if cnames == [] {
    } else {
      var n := |cnames| - 1;
      CnamesPrinted(cnames[..n]);
      LeafAfter(CnamesXml(cnames[..n]), PrintedCnames(cnames[..n]), "  ", "CNAME", cnames[n]);
    }
  }

  lemma {:induction false} SignersPrinted(signers: seq<string>)
    ensures Render(SignersXml(signers)) == PrintedSigners(signers)
  {
    if signers == [] {
    } else {
      var n := |signers| - 1;
      SignersPrinted(signers[..n]);
      LeafAfter(SignersXml(signers[..n]), PrintedSigners(signers[..n]), "  ", SignerTag(signers[n]), SignerText(signers[n]));
    }
  }

  lemma ScalarsPrinted(c: Config)
    ensures Render(Scalars(c)) == PrintedScalars(c)
  {
    LeafPrinted("  ", "CallerReference", c.callerReference);
    var xs := Leaf("  ", "CallerReference", c.callerReference);
    CnamesPrinted(c.cnames);
    RenderAppend(xs, CnamesXml(c.cnames));
    LeafPrinted("  ", "Comment", c.comment);
    RenderAppend(xs + CnamesXml(c.cnames), CommentXml(c.comment));
    var ys := xs + CnamesXml(c.cnames) + CommentXml(c.comment);
    LeafAfter(ys, Render(ys), "  ", "Enabled", EnabledText(c.enabled));
  }

  lemma LoggingPrinted(logging: Option<LoggingInfo>)
    ensures Render(OptionalLogging(logging)) == PrintedLogging(logging)
  {
    if logging.Some? {
      var l, start := logging.value, [Xml.Text("\n")];
      RenderText("\n");
      LeafAfter(start, "\n", "  ", "Bucket", l.bucket);
      var xs := start + Leaf("  ", "Bucket", l.bucket);
      LeafAfter(xs, Render(xs), "  ", "Prefix", l.prefix);
      RenderLine("", "Logging", xs + Leaf("  ", "Prefix", l.prefix));
    }
  }

  lemma TrustedPrinted(signers: Option<seq<string>>)
    ensures Render(OptionalSigners(signers)) == PrintedTrusted(signers)
  {
    if signers.Some? {
      var start, inner := [Xml.Text("\n")], SignersXml(signers.value);
      RenderText("\n");
      SignersPrinted(signers.value);
      RenderAppend(start, inner);
      RenderLine("", "TrustedSigners", start + inner);
    }
  }

  lemma RootPrinted(root: Option<string>)
    ensures Render(OptionalRoot(root)) == PrintedRoot(root)
  {
    if root.Some? {
      LeafPrinted("", "DefaultRootObject", root.value);
    }
  }

  lemma OptionalPrinted(c: Config)
    ensures Render(Optional(c)) == PrintedOptional(c)
  {
    var signers, logging, root := OptionalSigners(c.trustedSigners), OptionalLogging(c.logging), OptionalRoot(c.defaultRootObject);
    TrustedPrinted(c.trustedSigners);
    LoggingPrinted(c.logging);
    RootPrinted(c.defaultRootObject);
    RenderAppend(signers, logging);
    RenderAppend(signers + logging, root);
  }

  // The document that is printed, spelled out.
  lemma DocumentPrinted(c: Config)
    ensures Document(c) ==
      "<" + ("?xml version=\"1.0\"" + " encoding=\"UTF-8\"?") + ">" + "\n"
      + "<" + "DistributionConfig" + (" xmlns=\"http://cloudfront" + ".amazonaws.com/doc/" + "2010-07-15/\"") + ">"
      + ("\n" + (if c.origin == None then "" else PrintedOrigin(c.origin.value)) + PrintedScalars(c) + PrintedOptional(c))
      + "</" + "DistributionConfig" + ">" + "\n"
  {
    BodyPrinted(c);
  }

  lemma BodyPrinted(c: Config)
    ensures Render(Body(c)) ==
      "\n" + (if c.origin == None then "" else PrintedOrigin(c.origin.value)) + PrintedScalars(c) + PrintedOptional(c)
  {
    var start, origin := [Xml.Text("\n")], if c.origin.Some? then OriginXml(c.origin.value) else [];
    RenderText("\n");
    if c.origin.Some? {
      match c.origin.value
      case S3Origin(dnsName, identity) => S3OriginPrinted(dnsName, identity);
      case CustomOrigin(dnsName, httpPort, httpsPort, policy) => CustomOriginPrinted(dnsName, httpPort, httpsPort, policy);
    }
    RenderAppend(start, origin);
    ScalarsPrinted(c);
    RenderAppend(start + origin, Scalars(c));
    OptionalPrinted(c);
    RenderAppend(start + origin + Scalars(c), Optional(c));
  }

  lemma RenderText(t: string)
    ensures Render([Xml.Text(t)]) == t
  {
    assert [Xml.Text(t)][1..] == [];
  }

  lemma Append(s: string, head: string, xs: seq<Xml>, t: string, ys: seq<Xml>)
    requires s == head + Render(xs) && t == Render(ys)
    ensures s + t == head + Render(xs + ys)
  {
    RenderAppend(xs, ys);
    assert head + Render(xs) + Render(ys) == head + (Render(xs) + Render(ys));
  }

  // s += '<indent><tag>%s</tag>' % value, for one leaf element.
  method AddLeaf(s0: string, ghost head: string, ghost xs: seq<Xml>, indent: string, tag: string, value: string)
    returns (s: string)
    requires s0 == head + Render(xs)
    ensures s == head + Render(xs + Leaf(indent, tag, value))
  {
    s := s0 + (indent + "<" + tag + ">" + value + "</" + tag + ">\n");
    RenderLine(indent, tag, [Xml.Text(value)]);
    RenderText(value);
    Append(s0, head, xs, indent + "<" + tag + ">" + value + "</" + tag + ">\n", Leaf(indent, tag, value));
  }

  // s += '<indent><tag>', the opening line of a block.
  method OpenBlock(s0: string, indent: string, tag: string) returns (s: string, ghost head: string)
    ensures head == s0 + indent + "<" + tag + ">" && s == head + Render([Xml.Text("\n")])
  {
    head := s0 + indent + "<" + tag + ">";
    s := s0 + indent + "<" + tag + ">" + "\n";
    RenderText("\n");
  }

  // s += '</tag>', its closing line.
  method CloseBlock(s1: string, indent: string, tag: string, ghost s0: string, ghost head0: string, ghost xs: seq<Xml>,
                    ghost inner: seq<Xml>) returns (s: string)
    requires s0 == head0 + Render(xs) && s1 == s0 + indent + "<" + tag + ">" + Render(inner)
    ensures s == head0 + Render(xs + Line(indent, tag, inner))
  {
    s := s1 + ("</" + tag + ">\n");
    RenderLine(indent, tag, inner);
    ghost var t := indent + "<" + tag + ">" + Render(inner) + "</" + tag + ">\n";
    Append(s0, head0, xs, t, Line(indent, tag, inner));
    Regroup(s0, indent, tag, Render(inner));
  }

  lemma Regroup(s: string, indent: string, tag: string, inner: string)
    ensures s + indent + "<" + tag + ">" + inner + ("</" + tag + ">\n")
      == s + (indent + "<" + tag + ">" + inner + "</" + tag + ">\n")
  {}

  // The text of an origin, from its opening line on.
  method S3OriginToXml(o: Origin) returns (s: string)
    requires o.S3Origin?
    ensures s == Render(OriginXml(o))
  {
    ghost var head;
    ghost var xs := [Xml.Text("\n")];
    s, head := OpenBlock("", "  ", "S3Origin");
    s := AddLeaf(s, head, xs, "    ", "DNSName", Formatted(o.dnsName));
    xs := xs + Leaf("    ", "DNSName", Formatted(o.dnsName));
    assert xs + [] == xs;
    if o.identity.Some? && o.identity.value != Uri("") {
      s := AddLeaf(s, head, xs, "    ", "OriginAccessIdentity", IdentityText(o.identity.value));
    }
    xs := xs + IdentityXml(o.identity);
    s := CloseOrigin(s, "S3Origin", head, xs);
  }

  // None stands for the TypeError of formatting a port that is not an int.
  method CustomOriginToXml(o: Origin) returns (r: Option<string>)
    requires o.CustomOrigin?
    ensures r == if o.httpPort.Raw? || o.httpsPort.Raw? then None else Some(Render(OriginXml(o)))
  {
    ghost var head;
    ghost var xs := [Xml.Text("\n")];
    var s;
    s, head := OpenBlock("", "  ", "CustomOrigin");
    s := AddLeaf(s, head, xs, "    ", "DNSName", Formatted(o.dnsName));
    xs := xs + Leaf("    ", "DNSName", Formatted(o.dnsName));
    if o.httpPort.Raw? {
      return None;
    }
    s := AddLeaf(s, head, xs, "    ", "HTTPPort", Decimal(o.httpPort.n));
    xs := xs + Leaf("    ", "HTTPPort", Decimal(o.httpPort.n));
    if o.httpsPort.Raw? {
      return None;
    }
    s := AddLeaf(s, head, xs, "    ", "HTTPSPort", Decimal(o.httpsPort.n));
    xs := xs + Leaf("    ", "HTTPSPort", Decimal(o.httpsPort.n));
    s := AddLeaf(s, head, xs, "    ", "OriginProtocolPolicy", Formatted(o.policy));
    xs := xs + Leaf("    ", "OriginProtocolPolicy", Formatted(o.policy));
    s := CloseOrigin(s, "CustomOrigin", head, xs);
    return Some(s);
  }

  // The closing line of an origin: its indentation is still content.
  method CloseOrigin(s0: string, tag: string, ghost head: string, ghost xs: seq<Xml>) returns (s: string)
    requires head == "" + "  " + "<" + tag + ">" && s0 == head + Render(xs)
    ensures s == Render(Line("  ", tag, xs + [Xml.Text("  ")]))
  {
    s := s0 + "  ";
    RenderText("  ");
    Append(s0, head, xs, "  ", [Xml.Text("  ")]);
    s := CloseBlock(s, "  ", tag, "", "", [], xs + [Xml.Text("  ")]);
    assert [] + Line("  ", tag, xs + [Xml.Text("  ")]) == Line("  ", tag, xs + [Xml.Text("  ")]);
  }

  // The loop over the CNAMEs.
  method AddCnames(s0: string, cnames: seq<string>, ghost head: string, ghost xs: seq<Xml>) returns (s: string)
    requires s0 == head + Render(xs)
    ensures s == head + Render(xs + CnamesXml(cnames))
  {
    s := s0;
    assert xs + [] == xs;
    for i := 0 to |cnames|
      invariant s == head + Render(xs + CnamesXml(cnames[..i]))
    {
      assert cnames[..i + 1][..i] == cnames[..i];
      s := AddLeaf(s, head, xs + CnamesXml(cnames[..i]), "  ", "CNAME", cnames[i]);
      assert xs + CnamesXml(cnames[..i]) + Leaf("  ", "CNAME", cnames[i]) == xs + CnamesXml(cnames[..i + 1]);
    }
    assert cnames[..|cnames|] == cnames;
  }

  lemma SignersPrefix(signers: seq<string>, i: nat, xs: seq<Xml>)
    requires i < |signers|
    ensures xs + SignersXml(signers[..i]) + SignerXml(signers[i]) == xs + SignersXml(signers[..i + 1])
  {
    assert signers[..i + 1][..i] == signers[..i];
    assert SignersXml(signers[..i + 1]) == SignersXml(signers[..i]) + SignerXml(signers[i]);
  }

  // The loop over the signers.
  method AddSigners(s0: string, signers: seq<string>, ghost head: string, ghost xs: seq<Xml>) returns (s: string)
    requires s0 == head + Render(xs)
    ensures s == head + Render(xs + SignersXml(signers))
  {
    s := s0;
    assert xs + [] == xs;
    for i := 0 to |signers|
      invariant s == head + Render(xs + SignersXml(signers[..i]))
    {
      SignersPrefix(signers, i, xs);
      s := AddSigner(s, signers[i], head, xs + SignersXml(signers[..i]));
    }
    assert signers[..|signers|] == signers;
  }

  method AddSigner(s0: string, signer: string, ghost head: string, ghost xs: seq<Xml>) returns (s: string)
    requires s0 == head + Render(xs)
    ensures s == head + Render(xs + SignerXml(signer))
  {
    if signer == "Self" {
      s := AddLeaf(s0, head, xs, "  ", "Self", "");
    } else {
      s := AddLeaf(s0, head, xs, "  ", "AwsAccountNumber", signer);
    }
  }

  method AddLogging(s0: string, logging: LoggingInfo, ghost head: string, ghost xs: seq<Xml>) returns (s: string)
    requires s0 == head + Render(xs)
    ensures s == head + Render(xs + LoggingXml(logging))
  {
    ghost var head';
    ghost var ys := [Xml.Text("\n")];
    s, head' := OpenBlock(s0, "", "Logging");
    s := AddLeaf(s, head', ys, "  ", "Bucket", logging.bucket);
    ys := ys + Leaf("  ", "Bucket", logging.bucket);
    s := AddLeaf(s, head', ys, "  ", "Prefix", logging.prefix);
    ys := ys + Leaf("  ", "Prefix", logging.prefix);
    s := CloseBlock(s, "", "Logging", s0, head, xs, ys);
  }

  method AddTrustedSigners(s0: string, signers: seq<string>, ghost head: string, ghost xs: seq<Xml>) returns (s: string)
    requires s0 == head + Render(xs)
    ensures s == head + Render(xs + TrustedSignersXml(signers))
  {
    ghost var head';
    ghost var ys := [Xml.Text("\n")];
    s, head' := OpenBlock(s0, "", "TrustedSigners");
    s := AddSigners(s, signers, head', ys);
    s := CloseBlock(s, "", "TrustedSigners", s0, head, xs, ys + SignersXml(signers));
  }

  // DistributionConfig.to_xml; None stands for the TypeError above.
  method ToXml(c: Config) returns (r: Option<string>)
    ensures r == if Formattable(c) then Some(Document(c)) else None
  {
    var s := "<" + DECLARATION + ">" + "\n" + "<" + ROOT_TAG + NAMESPACE + ">";
    ghost var head, xs := s, [Xml.Text("\n")];
    s := s + "\n";
    RenderText("\n");
    if c.origin.Some? {
      if c.origin.value.S3Origin? {
        var t := S3OriginToXml(c.origin.value);
        Append(s, head, xs, t, OriginXml(c.origin.value));
        s := s + t;
      } else {
        var t := CustomOriginToXml(c.origin.value);
        if t.None? {
          return None;
        }
        Append(s, head, xs, t.value, OriginXml(c.origin.value));
        s := s + t.value;
      }
      xs := xs + OriginXml(c.origin.value);
    } else {
      assert xs + [] == xs;
    }
    s := AddScalars(s, c, head, xs);
    s := AddOptional(s, c, head, xs + Scalars(c));
    r := Some(s + "</" + ROOT_TAG + ">" + "\n");
  }

  method AddScalars(s0: string, c: Config, ghost head: string, ghost xs0: seq<Xml>) returns (s: string)
    requires s0 == head + Render(xs0)
    ensures s == head + Render(xs0 + Scalars(c))
  {
    ghost var xs := xs0;
    s := AddLeaf(s0, head, xs, "  ", "CallerReference", c.callerReference);
    xs := xs + Leaf("  ", "CallerReference", c.callerReference);
    s := AddCnames(s, c.cnames, head, xs);
    xs := xs + CnamesXml(c.cnames);
    assert xs + [] == xs;
    if c.comment != "" {
      s := AddLeaf(s, head, xs, "  ", "Comment", c.comment);
    }
    xs := xs + CommentXml(c.comment);
    s := AddLeaf(s, head, xs, "  ", "Enabled", EnabledText(c.enabled));
    Regroup4(xs0, Leaf("  ", "CallerReference", c.callerReference), CnamesXml(c.cnames), CommentXml(c.comment),
             Leaf("  ", "Enabled", EnabledText(c.enabled)));
  }

  lemma Regroup4<T>(a: seq<T>, b: seq<T>, c: seq<T>, d: seq<T>, e: seq<T>)
    ensures a + b + c + d + e == a + (b + c + d + e)
    ensures a + [] == a
  {}

  method AddOptional(s0: string, c: Config, ghost head: string, ghost xs0: seq<Xml>) returns (s: string)
    requires s0 == head + Render(xs0)
    ensures s == head + Render(xs0 + Optional(c))
  {
    s := s0;
    ghost var xs := xs0;
    assert xs + [] == xs;
    if c.trustedSigners.Some? && c.trustedSigners.value != [] {
      s := AddTrustedSigners(s, c.trustedSigners.value, head, xs);
    }
    xs := xs + OptionalSigners(c.trustedSigners);
    assert xs + [] == xs;
    if c.logging.Some? {
      s := AddLogging(s, c.logging.value, head, xs);
    }
    xs := xs + OptionalLogging(c.logging);
    assert xs + [] == xs;
    if c.defaultRootObject.Some? && c.defaultRootObject.value != "" {
      s := AddLeaf(s, head, xs, "", "DefaultRootObject", c.defaultRootObject.value);
    }
    Regroup4(xs0, OptionalSigners(c.trustedSigners), OptionalLogging(c.logging), OptionalRoot(c.defaultRootObject), []);
    assert Optional(c) + [] == Optional(c);
    Regroup4(xs + OptionalRoot(c.defaultRootObject), [], [], [], []);
  }

  // ---- reading ----

  // The node on the stack: the config itself or one of the objects it holds.
  datatype NodeRef = ConfigNode | SignersNode | LoggingNode | OriginNode

  // The config read so far, and the attributes set for unknown tags.
  datatype Parsed = Parsed(config: Config, attrs: map<(NodeRef, string), string>)

  function SetAttr(h: Parsed, node: NodeRef, name: string, value: string): Parsed {
    h.(attrs := h.attrs[(node, name) := value])
  }

  function StartNode(h: Parsed, node: NodeRef, name: string): (Parsed, Option<(string, NodeRef)>) {
    if node != ConfigNode then (h, None)
    else if name == "TrustedSigners" then
      (h.(config := h.config.(trustedSigners := Some([]))), Some((name, SignersNode)))
    else if name == "Logging" then
      (h.(config := h.config.(logging := Some(LoggingInfo("", "")))), Some((name, LoggingNode)))
    else if name == "S3Origin" then
      (h.(config := h.config.(origin := Some(S3Origin(None, None)))), Some((name, OriginNode)))
    else if name == "CustomOrigin" then
      (h.(config := h.config.(origin := Some(CustomOrigin(None, Num(80), Num(443), None)))), Some((name, OriginNode)))
    else (h, None)
  }

  function EndNode(h: Parsed, node: NodeRef, name: string, value: string): Parsed {
    match node
    case ConfigNode => EndInConfig(h, name, value)
    case SignersNode =>
      if h.config.trustedSigners.None? then h
      else h.(config := h.config.(trustedSigners := Some(EndInSigners(h.config.trustedSigners.value, name, value))))
    case LoggingNode =>
      if h.config.logging.None? then h
      else if name == "Bucket" then
        h.(config := h.config.(logging := Some(h.config.logging.value.(bucket := value))))
      else if name == "Prefix" then
        h.(config := h.config.(logging := Some(h.config.logging.value.(prefix := value))))
      else SetAttr(h, LoggingNode, name, value)
    case OriginNode =>
      if h.config.origin.None? then h
      else match EndInOrigin(h.config.origin.value, name, value)
        case Some(o) => h.(config := h.config.(origin := Some(o)))
        case None => SetAttr(h, OriginNode, name, value)
  }

  function EndInConfig(h: Parsed, name: string, value: string): Parsed {
    var c := h.config;
    if name == "CNAME" then h.(config := c.(cnames := c.cnames + [value]))
    else if name == "Comment" then h.(config := c.(comment := value))
    else if name == "Enabled" then h.(config := c.(enabled := Lower(value) == "true"))
    else if name == "CallerReference" then h.(config := c.(callerReference := value))
    else if name == "DefaultRootObject" then h.(config := c.(defaultRootObject := Some(value)))
    else SetAttr(h, ConfigNode, name, value)
  }

  function EndInSigners(signers: seq<string>, name: string, value: string): seq<string> {
    if name == "Self" then signers + [name]
    else if name == "AwsAccountNumber" then signers + [value]
    else signers
  }

  function ParsePort(value: string): Port {
    match ParseInt(value)
    case Some(n) => Num(n)
    case None => Raw(value)
  }

  // None when the tag is not one of the origin's own.
  function EndInOrigin(o: Origin, name: string, value: string): Option<Origin> {
    if name == "DNSName" then Some(o.(dnsName := Some(value)))
    else if o.S3Origin? then
      if name == "OriginAccessIdentity" then Some(o.(identity := Some(Uri(value)))) else None
    else if name == "HTTPPort" then Some(o.(httpPort := ParsePort(value)))
    else if name == "HTTPSPort" then Some(o.(httpsPort := ParsePort(value)))
    else if name == "OriginProtocolPolicy" then Some(o.(policy := Some(value)))
    else None
  }

  // None of these nodes has an endNode.
  function Handlers(): Behaviour<Parsed, NodeRef> {
    Behaviour(
      (h: Parsed, node: NodeRef, name: string) => StartNode(h, node, name),
      (h: Parsed, node: NodeRef, name: string, text: string) => EndNode(h, node, name, text),
      (h: Parsed, node: NodeRef) => h)
  }

  // ---- what the values of tags mean ----

  // 'true' in any case is true, and anything else false.
  lemma EnabledRead(h: Parsed, value: string)
    ensures var enabled := |value| == 4 && value[0] in "tT" && value[1] in "rR" && value[2] in "uU" && value[3] in "eE";
      EndInConfig(h, "Enabled", value).config == h.config.(enabled := enabled)
  {
    assert Lower(value) == "true" <==>
      |value| == 4 && LowerChar(value[0]) == 't' && LowerChar(value[1]) == 'r' && LowerChar(value[2]) == 'u' && LowerChar(value[3]) == 'e';
  }

  // A port is read as a number wherever int() takes it, and kept as the text
  // it is otherwise.
  lemma PortRead(a: string, sign: string, d: string, b: string)
    requires AllWhite(a) && AllWhite(b) && d != [] && AllDigits(d)
    requires sign == "" || sign == "+" || sign == "-"
    ensures ParsePort(a + (sign + d) + b) == Num(if sign == "-" then -(Value(d) as int) else Value(d))
  {
    ParseIntReads(a, sign, d, b);
  }

  lemma PortKept(value: string)
    requires forall a, sign, d, b :: AllWhite(a) && AllWhite(b) && d != [] && AllDigits(d) && sign in ["", "+", "-"] ==>
      value != a + (sign + d) + b
    ensures ParsePort(value) == Raw(value)
  {
    if ParseInt(value).Some? {
      var a, sign, d, b := ParseIntOnly(value);
    }
  }

  // What printing and reading leaves of an origin and of a config.
  function CanonOrigin(o: Origin): Origin {
    match o
    case S3Origin(dnsName, identity) =>
      S3Origin(Some(Formatted(dnsName)),
               if identity.Some? && identity.value != Uri("") then Some(Uri(IdentityText(identity.value))) else None)
    case CustomOrigin(dnsName, httpPort, httpsPort, policy) =>
      CustomOrigin(Some(Formatted(dnsName)), httpPort, httpsPort, Some(Formatted(policy)))
  }

  function Canon(c: Config): Config {
    c.(origin := if c.origin.Some? then Some(CanonOrigin(c.origin.value)) else None,
       trustedSigners := if c.trustedSigners == Some([]) then None else c.trustedSigners,
       defaultRootObject := if c.defaultRootObject == Some("") then None else c.defaultRootObject)
  }

  // ---- the walk over what was printed ----

  lemma WalkText(h: Parsed, node: NodeRef, t: string, text: string)
    ensures Walk(Handlers(), h, node, [Xml.Text(t)], text) == (h, text + t)
  {
    assert [Xml.Text(t)][1..] == [];
  }

  lemma WalkLine(h: Parsed, node: NodeRef, indent: string, tag: string, inner: seq<Xml>, text: string)
    ensures Walk(Handlers(), h, node, Line(indent, tag, inner), text) == (WalkElem(Handlers(), h, node, tag, inner), "\n")
  {
    var l := Line(indent, tag, inner);
    var h' := WalkElem(Handlers(), h, node, tag, inner);
    assert l[1..] == [Elem(tag, inner), Xml.Text("\n")];
    assert l[1..][1..] == [Xml.Text("\n")];
    WalkText(h', node, "\n", "");
    assert Walk(Handlers(), h, node, l[1..], text + indent) == Walk(Handlers(), h', node, [Xml.Text("\n")], "");
    assert "" + "\n" == "\n";
  }

  // A leaf its node declines: only its end is seen.
  lemma WalkLeaf(h: Parsed, node: NodeRef, indent: string, tag: string, value: string, text: string)
    requires StartNode(h, node, tag) == (h, None)
    ensures Walk(Handlers(), h, node, Leaf(indent, tag, value), text) == (EndNode(h, node, tag, value), "\n")
  {
    WalkLine(h, node, indent, tag, [Xml.Text(value)], text);
    WalkText(h, node, value, "");
    assert "" + value == value;
  }

  lemma {:induction false} WalkCnames(h: Parsed, cnames: seq<string>, text: string)
    ensures Walk(Handlers(), h, ConfigNode, CnamesXml(cnames), text).0
      == h.(config := h.config.(cnames := h.config.cnames + cnames))
  {
    if cnames == [] {
      assert h.config.cnames + cnames == h.config.cnames;
    } else {
      var n := |cnames| - 1;
      WalkCnames(h, cnames[..n], text);
      WalkAppend(Handlers(), h, ConfigNode, CnamesXml(cnames[..n]), Leaf("  ", "CNAME", cnames[n]), text);
      var (h', text') := Walk(Handlers(), h, ConfigNode, CnamesXml(cnames[..n]), text);
      WalkLeaf(h', ConfigNode, "  ", "CNAME", cnames[n], text');
      assert h.config.cnames + cnames[..n] + [cnames[n]] == h.config.cnames + cnames;
    }
  }

  lemma {:induction false} WalkSigners(h: Parsed, signers: seq<string>, text: string)
    requires h.config.trustedSigners.Some?
    ensures Walk(Handlers(), h, SignersNode, SignersXml(signers), text).0
      == h.(config := h.config.(trustedSigners := Some(h.config.trustedSigners.value + signers)))
  {
    if signers == [] {
      assert h.config.trustedSigners.value + signers == h.config.trustedSigners.value;
    } else {
      var n := |signers| - 1;
      WalkSigners(h, signers[..n], text);
      WalkAppend(Handlers(), h, SignersNode, SignersXml(signers[..n]), SignerXml(signers[n]), text);
      var (h', text') := Walk(Handlers(), h, SignersNode, SignersXml(signers[..n]), text);
      WalkLeaf(h', SignersNode, "  ", SignerTag(signers[n]), SignerText(signers[n]), text');
      assert h.config.trustedSigners.value + signers[..n] + [signers[n]] == h.config.trustedSigners.value + signers;
    }
  }

  // Appending one more leaf that its node declines.
  lemma WalkMore(h: Parsed, node: NodeRef, xs: seq<Xml>, text: string, indent: string, tag: string, value: string)
    requires var h' := Walk(Handlers(), h, node, xs, text).0; StartNode(h', node, tag) == (h', None)
    ensures Walk(Handlers(), h, node, xs + Leaf(indent, tag, value), text).0
      == EndNode(Walk(Handlers(), h, node, xs, text).0, node, tag, value)
  {
    var (h', text') := Walk(Handlers(), h, node, xs, text);
    WalkAppend(Handlers(), h, node, xs, Leaf(indent, tag, value), text);
    WalkLeaf(h', node, indent, tag, value, text');
  }

  lemma WalkTrustedSigners(h: Parsed, signers: seq<string>, text: string)
    ensures Walk(Handlers(), h, ConfigNode, TrustedSignersXml(signers), text).0.config
      == h.config.(trustedSigners := Some(signers))
  {
    var start, inner := [Xml.Text("\n")], [Xml.Text("\n")] + SignersXml(signers);
    WalkLine(h, ConfigNode, "", "TrustedSigners", inner, text);
    var h1 := StartNode(h, ConfigNode, "TrustedSigners").0;
    WalkAppend(Handlers(), h1, SignersNode, start, SignersXml(signers), "");
    WalkText(h1, SignersNode, "\n", "");
    WalkSigners(h1, signers, "" + "\n");
    assert [] + signers == signers;
  }

  lemma WalkLogging(h: Parsed, l: LoggingInfo, text: string)
    ensures Walk(Handlers(), h, ConfigNode, LoggingXml(l), text).0.config == h.config.(logging := Some(l))
  {
    var start := [Xml.Text("\n")];
    var h1 := StartNode(h, ConfigNode, "Logging").0;
    WalkLine(h, ConfigNode, "", "Logging", start + Leaf("  ", "Bucket", l.bucket) + Leaf("  ", "Prefix", l.prefix), text);
    WalkText(h1, LoggingNode, "\n", "");
    WalkMore(h1, LoggingNode, start, "", "  ", "Bucket", l.bucket);
    WalkMore(h1, LoggingNode, start + Leaf("  ", "Bucket", l.bucket), "", "  ", "Prefix", l.prefix);
  }

  lemma WalkS3Origin(h: Parsed, o: Origin, text: string)
    requires o.S3Origin?
    ensures Walk(Handlers(), h, ConfigNode, OriginXml(o), text).0.config == h.config.(origin := Some(CanonOrigin(o)))
  {
    var xs := [Xml.Text("\n")];
    var h1 := StartNode(h, ConfigNode, "S3Origin").0;
    WalkText(h1, OriginNode, "\n", "");
    WalkMore(h1, OriginNode, xs, "", "    ", "DNSName", Formatted(o.dnsName));
    xs := xs + Leaf("    ", "DNSName", Formatted(o.dnsName));
    if IdentityXml(o.identity) == [] {
      assert xs + [] == xs;
    } else {
      WalkMore(h1, OriginNode, xs, "", "    ", "OriginAccessIdentity", IdentityText(o.identity.value));
    }
    FinishOrigin(h, o, h1, "S3Origin", xs + IdentityXml(o.identity), text);
  }

  // One more field of the origin being read.
  lemma OriginField(h: Parsed, c: Config, xs: seq<Xml>, o: Origin, tag: string, value: string, o': Origin)
    requires Walk(Handlers(), h, OriginNode, xs, "").0.config == c.(origin := Some(o))
    requires EndInOrigin(o, tag, value) == Some(o')
    ensures Walk(Handlers(), h, OriginNode, xs + Leaf("    ", tag, value), "").0.config == c.(origin := Some(o'))
  {
    WalkMore(h, OriginNode, xs, "", "    ", tag, value);
  }

  // The custom origin after its DNS name, and after each port.
  lemma CustomFields(dns: string, p: Port, q: Port, policy: string)
    requires p.Num? && q.Num?
    ensures EndInOrigin(CustomOrigin(None, Num(80), Num(443), None), "DNSName", dns)
      == Some(CustomOrigin(Some(dns), Num(80), Num(443), None))
    ensures EndInOrigin(CustomOrigin(Some(dns), Num(80), Num(443), None), "HTTPPort", PortText(p))
      == Some(CustomOrigin(Some(dns), p, Num(443), None))
    ensures EndInOrigin(CustomOrigin(Some(dns), p, Num(443), None), "HTTPSPort", PortText(q))
      == Some(CustomOrigin(Some(dns), p, q, None))
    ensures EndInOrigin(CustomOrigin(Some(dns), p, q, None), "OriginProtocolPolicy", policy)
      == Some(CustomOrigin(Some(dns), p, q, Some(policy)))
  {
    ParseDecimal(p.n);
    ParseDecimal(q.n);
  }

  lemma WalkCustomOrigin(h: Parsed, o: Origin, text: string)
    requires o.CustomOrigin? && o.httpPort.Num? && o.httpsPort.Num?
    ensures Walk(Handlers(), h, ConfigNode, OriginXml(o), text).0.config == h.config.(origin := Some(CanonOrigin(o)))
  {
    var dns, p, q, policy := Formatted(o.dnsName), o.httpPort, o.httpsPort, Formatted(o.policy);
    var h1, c := StartNode(h, ConfigNode, "CustomOrigin").0, h.config;
    WalkText(h1, OriginNode, "\n", "");
    CustomFields(dns, p, q, policy);
    var x0 := [Xml.Text("\n")];
    var x1 := x0 + Leaf("    ", "DNSName", dns);
    var x2 := x1 + Leaf("    ", "HTTPPort", PortText(p));
    var x3 := x2 + Leaf("    ", "HTTPSPort", PortText(q));
    OriginField(h1, c, x0, CustomOrigin(None, Num(80), Num(443), None), "DNSName", dns,
                CustomOrigin(Some(dns), Num(80), Num(443), None));
    OriginField(h1, c, x1, CustomOrigin(Some(dns), Num(80), Num(443), None), "HTTPPort", PortText(p),
                CustomOrigin(Some(dns), p, Num(443), None));
    OriginField(h1, c, x2, CustomOrigin(Some(dns), p, Num(443), None), "HTTPSPort", PortText(q),
                CustomOrigin(Some(dns), p, q, None));
    OriginField(h1, c, x3, CustomOrigin(Some(dns), p, q, None), "OriginProtocolPolicy", policy, CanonOrigin(o));
    FinishOrigin(h, o, h1, "CustomOrigin", x3 + Leaf("    ", "OriginProtocolPolicy", policy), text);
  }

  // The end of an origin changes nothing but an attribute named after its tag.
  lemma FinishOrigin(h: Parsed, o: Origin, h1: Parsed, tag: string, xs: seq<Xml>, text: string)
    requires tag == if o.S3Origin? then "S3Origin" else "CustomOrigin"
    requires StartNode(h, ConfigNode, tag) == (h1, Some((tag, OriginNode)))
    requires Walk(Handlers(), h1, OriginNode, xs, "").0.config == h.config.(origin := Some(CanonOrigin(o)))
    ensures Walk(Handlers(), h, ConfigNode, Line("  ", tag, xs + [Xml.Text("  ")]), text).0.config
      == h.config.(origin := Some(CanonOrigin(o)))
  {
    WalkLine(h, ConfigNode, "  ", tag, xs + [Xml.Text("  ")], text);
    var (h2, text2) := Walk(Handlers(), h1, OriginNode, xs, "");
    WalkAppend(Handlers(), h1, OriginNode, xs, [Xml.Text("  ")], "");
    WalkText(h2, OriginNode, "  ", text2);
  }

  lemma WalkScalars(h: Parsed, c: Config, text: string)
    requires h.config.cnames == [] && h.config.comment == ""
    ensures Walk(Handlers(), h, ConfigNode, Scalars(c), text).0.config == h.config.(
      callerReference := c.callerReference, cnames := c.cnames, comment := c.comment, enabled := c.enabled)
  {
    var xs := Leaf("  ", "CallerReference", c.callerReference);
    WalkLeaf(h, ConfigNode, "  ", "CallerReference", c.callerReference, text);
    var (h1, text1) := Walk(Handlers(), h, ConfigNode, xs, text);
    WalkAppend(Handlers(), h, ConfigNode, xs, CnamesXml(c.cnames), text);
    WalkCnames(h1, c.cnames, text1);
    assert [] + c.cnames == c.cnames;
    xs := xs + CnamesXml(c.cnames);
    if c.comment != "" {
      WalkMore(h, ConfigNode, xs, text, "  ", "Comment", c.comment);
    } else {
      assert xs + [] == xs;
    }
    xs := xs + CommentXml(c.comment);
    WalkMore(h, ConfigNode, xs, text, "  ", "Enabled", EnabledText(c.enabled));
    LowerTruth();
  }

  lemma LowerTruth()
    ensures Lower("true") == "true" && Lower("false") != "true"
  {
    assert |Lower("false")| == 5;
  }

  lemma WalkOptional(h: Parsed, c: Config, text: string)
    requires h.config.trustedSigners.None? && h.config.logging.None? && h.config.defaultRootObject.None?
    ensures Walk(Handlers(), h, ConfigNode, Optional(c), text).0.config == h.config.(
      trustedSigners := Canon(c).trustedSigners, logging := c.logging, defaultRootObject := Canon(c).defaultRootObject)
  {
    var xs := OptionalSigners(c.trustedSigners);
    if xs != [] {
      WalkTrustedSigners(h, c.trustedSigners.value, text);
    }
    var (h1, text1) := Walk(Handlers(), h, ConfigNode, xs, text);
    assert h1.config == h.config.(trustedSigners := Canon(c).trustedSigners);
    if c.logging.Some? {
      WalkAppend(Handlers(), h, ConfigNode, xs, LoggingXml(c.logging.value), text);
      WalkLogging(h1, c.logging.value, text1);
    } else {
      assert xs + [] == xs;
    }
    xs := xs + OptionalLogging(c.logging);
    if OptionalRoot(c.defaultRootObject) != [] {
      WalkMore(h, ConfigNode, xs, text, "", "DefaultRootObject", c.defaultRootObject.value);
    } else {
      assert xs + [] == xs;
    }
  }

  lemma WalkBody(h: Parsed, c: Config, uuid: string)
    requires h.config == NewConfig(uuid) && Formattable(c)
    ensures Walk(Handlers(), h, ConfigNode, Body(c), "").0.config == Canon(c)
  {
    var xs := [Xml.Text("\n")];
    WalkText(h, ConfigNode, "\n", "");
    if c.origin.Some? {
      WalkAppend(Handlers(), h, ConfigNode, xs, OriginXml(c.origin.value), "");
      if c.origin.value.S3Origin? {
        WalkS3Origin(h, c.origin.value, "" + "\n");
      } else {
        WalkCustomOrigin(h, c.origin.value, "" + "\n");
      }
      xs := xs + OriginXml(c.origin.value);
    } else {
      assert xs + [] == xs;
    }
    var (h1, text1) := Walk(Handlers(), h, ConfigNode, xs, "");
    WalkAppend(Handlers(), h, ConfigNode, xs, Scalars(c), "");
    WalkScalars(h1, c, text1);
    var (h2, text2) := Walk(Handlers(), h1, ConfigNode, Scalars(c), text1);
    WalkAppend(Handlers(), h, ConfigNode, xs + Scalars(c), Optional(c), "");
    WalkOptional(h2, c, text2);
  }

  // ---- main results ----

  predicate PlainOption(o: Option<string>) {
    o.Some? ==> Plain(o.value)
  }

  // The string values need no XML escaping.
  predicate PlainValues(c: Config) {
    && Plain(c.callerReference) && Plain(c.comment)
    && (forall i :: 0 <= i < |c.cnames| ==> Plain(c.cnames[i]))
    && (c.trustedSigners.Some? ==> forall i :: 0 <= i < |c.trustedSigners.value| ==> Plain(c.trustedSigners.value[i]))
    && (c.logging.Some? ==> Plain(c.logging.value.bucket) && Plain(c.logging.value.prefix))
    && PlainOption(c.defaultRootObject)
    && (c.origin.Some? ==> PlainOrigin(c.origin.value))
  }

  predicate PlainOrigin(o: Origin) {
    && PlainOption(o.dnsName)
    && (o.S3Origin? && o.identity.Some? ==> Plain(IdentityText(o.identity.value)))
    && (o.CustomOrigin? ==> PlainOption(o.policy))
  }

  // Reading a root element and the newline after it.
  lemma LexRoot(tag: string, attributes: string, kids: seq<Xml>)
    requires TagName(tag) && '>' !in attributes && (attributes == "" || attributes[0] == ' ')
    requires Writable(kids)
    ensures Lex("<" + tag + attributes + ">" + (Render(kids) + ("</" + tag + ">" + "\n")), 0)
      == Some([Start(tag)] + (Pieces(kids) + [End(tag)]))
  {
    var rest, events := Render(kids) + ("</" + tag + ">" + "\n"), Pieces(kids) + [End(tag)];
    LexRootContent(kids, tag);
    LexOpenThen(tag, attributes, rest, 0, 1, events);
  }

  lemma LexOpenThen(tag: string, attributes: string, rest: string, depth: nat, inside: nat, events: seq<Event>)
    requires TagName(tag) && '>' !in attributes && (attributes == "" || attributes[0] == ' ')
    requires inside == depth + 1 && Lex(rest, inside) == Some(events)
    ensures Lex("<" + tag + attributes + ">" + rest, depth) == Some([Start(tag)] + events)
  {
    LexOpen(tag, attributes, rest, depth);
  }

  lemma LexRootContent(kids: seq<Xml>, tag: string)
    requires Writable(kids) && TagName(tag)
    ensures Lex(Render(kids) + ("</" + tag + ">" + "\n"), 1) == Some(Pieces(kids) + [End(tag)])
  {
    LexRender(kids, "</" + tag + ">" + "\n", 1);
    LexTail(tag);
  }

  lemma LexTail(tag: string)
    requires TagName(tag)
    ensures Lex("</" + tag + ">" + "\n", 1) == Some([End(tag)])
  {
    LexClose(tag, "\n", 1);
    LexFinalNewline();
    AppendNothing([End(tag)]);
  }

  lemma LexFinalNewline()
    ensures Lex("\n", 0) == Some([])
  {
    var s := "\n";
    assert s[1..] == "";
    assert Lex("", 0) == Some([]);
    PrependNothing(Lex("", 0));
  }

  // Reading a declaration and a root element around a tree.
  lemma LexWrapped(declaration: string, tag: string, attributes: string, kids: seq<Xml>)
    requires declaration != "" && declaration[0] == '?' && '>' !in declaration
    requires TagName(tag) && '>' !in attributes && (attributes == "" || attributes[0] == ' ')
    requires Writable(kids)
    ensures Lex(Wrapped(declaration, tag, attributes, Render(kids)), 0)
      == Some([Start(tag)] + (Pieces(kids) + [End(tag)]))
  {
    WrappedParts(declaration, tag, attributes, Render(kids));
    LexDeclaration(declaration, "<" + tag + attributes + ">" + (Render(kids) + ("</" + tag + ">" + "\n")));
    LexRoot(tag, attributes, kids);
  }

  lemma AppendNothing<T>(s: seq<T>)
    ensures s + [] == s
  {}

  lemma WrappedParts(declaration: string, tag: string, attributes: string, content: string)
    ensures Wrapped(declaration, tag, attributes, content) ==
      "<" + declaration + ">" + "\n" + ("<" + tag + attributes + ">" + (content + ("</" + tag + ">" + "\n")))
  {
    var a, b, c := "<" + declaration + ">" + "\n", "<" + tag + attributes + ">", "</" + tag + ">" + "\n";
    assert Wrapped(declaration, tag, attributes, content) == a + b + content + c;
    Associate(a, b, content, c);
  }

  lemma Associate(a: string, b: string, c: string, d: string)
    ensures a + b + c + d == a + (b + (c + d))
  {}

  lemma LexNewline(rest: string)
    ensures Lex("\n" + rest, 0) == Lex(rest, 0)
  {
    assert ("\n" + rest)[1..] == rest;
    PrependNothing(Lex(rest, 0));
  }

  lemma LexDeclaration(declaration: string, rest: string)
    requires declaration != "" && declaration[0] == '?' && '>' !in declaration
    ensures Lex("<" + declaration + ">" + "\n" + rest, 0) == Lex(rest, 0)
  {
    var s := "<" + declaration + ">" + "\n" + rest;
    assert s[1..] == declaration + ['>'] + ("\n" + rest);
    UpToSplit(declaration, '>', "\n" + rest);
    assert s[|declaration| + 2..] == "\n" + rest;
    LexNewline(rest);
  }

  lemma HeaderIsMarkup()
    ensures DECLARATION != "" && DECLARATION[0] == '?' && '>' !in DECLARATION
    ensures TagName(ROOT_TAG) && '>' !in NAMESPACE && NAMESPACE[0] == ' '
  {
    assert '>' !in "?xml version=\"1.0\"" && '>' !in " encoding=\"UTF-8\"?";
    assert '>' !in " xmlns=\"http://cloudfront" && '>' !in ".amazonaws.com/doc/" && '>' !in "2010-07-15/\"";
  }

  // ---- what is printed can be read, and nests properly ----

  // Lines of markup that need no escaping and repeat none of the enclosing names.
  ghost predicate Sound(xs: seq<Xml>, outer: set<string>) {
    Writable(xs) && NamesNest(xs, outer) && forall i :: 0 <= i < |xs| && xs[i].Text? ==> !EndsInBracket(xs[i].text)
  }

  lemma SoundAppend(xs: seq<Xml>, ys: seq<Xml>, outer: set<string>)
    requires Sound(xs, outer) && Sound(ys, outer)
    ensures Sound(xs + ys, outer)
  {
    assert forall i :: 0 <= i < |xs| + |ys| ==> (xs + ys)[i] == if i < |xs| then xs[i] else ys[i - |xs|];
  }

  lemma SoundText(t: string, outer: set<string>)
    requires Blank(t)
    ensures Sound([Xml.Text(t)], outer)
  {
    BlankIsPlain(t);
  }

  lemma SoundLine(indent: string, tag: string, inner: seq<Xml>, outer: set<string>)
    requires Blank(indent) && TagName(tag) && tag !in outer && Writable(inner) && NamesNest(inner, outer + {tag})
    ensures Sound(Line(indent, tag, inner), outer)
  {
    BlankIsPlain(indent);
    BlankIsPlain("\n");
  }

  lemma SoundLeaf(indent: string, tag: string, value: string, outer: set<string>)
    requires Blank(indent) && TagName(tag) && tag !in outer && Plain(value)
    ensures Sound(Leaf(indent, tag, value), outer)
  {
    SoundLine(indent, tag, [Xml.Text(value)], outer);
  }

  lemma SoundMore(xs: seq<Xml>, indent: string, tag: string, value: string, outer: set<string>)
    requires Sound(xs, outer)
    requires Blank(indent) && TagName(tag) && tag !in outer && Plain(value)
    ensures Sound(xs + Leaf(indent, tag, value), outer)
  {
    SoundLeaf(indent, tag, value, outer);
    SoundAppend(xs, Leaf(indent, tag, value), outer);
  }

  lemma PlainDecimal(n: int)
    ensures Plain(Decimal(n))
  {
    WordIsPlain(Decimal(n));
  }

  const ROOT_SCOPE := {"root", ROOT_TAG}

  lemma {:induction false} SoundCnames(cnames: seq<string>)
    requires forall i :: 0 <= i < |cnames| ==> Plain(cnames[i])
    ensures Sound(CnamesXml(cnames), ROOT_SCOPE)
  {
    if cnames == [] {
    } else {
      SoundCnames(cnames[..|cnames| - 1]);
      SoundMore(CnamesXml(cnames[..|cnames| - 1]), "  ", "CNAME", cnames[|cnames| - 1], ROOT_SCOPE);
    }
  }

  lemma {:induction false} SoundSigners(signers: seq<string>, outer: set<string>)
    requires "Self" !in outer && "AwsAccountNumber" !in outer
    requires forall i :: 0 <= i < |signers| ==> Plain(signers[i])
    ensures Sound(SignersXml(signers), outer)
  {
    if signers == [] {
    } else {
      SoundSigners(signers[..|signers| - 1], outer);
      var signer := signers[|signers| - 1];
      SignerTagName(signer);
      SoundMore(SignersXml(signers[..|signers| - 1]), "  ", SignerTag(signer), SignerText(signer), outer);
    }
  }

  lemma SignerTagName(signer: string)
    ensures TagName(SignerTag(signer))
  {
    assert TagName("AwsAccountNumber") && TagName("Self");
  }

  lemma SoundTrustedSigners(signers: seq<string>)
    requires forall i :: 0 <= i < |signers| ==> Plain(signers[i])
    ensures Sound(TrustedSignersXml(signers), ROOT_SCOPE)
  {
    var outer := ROOT_SCOPE + {"TrustedSigners"};
    SoundSigners(signers, outer);
    SoundText("\n", outer);
    SoundAppend([Xml.Text("\n")], SignersXml(signers), outer);
    SoundLine("", "TrustedSigners", [Xml.Text("\n")] + SignersXml(signers), ROOT_SCOPE);
  }

  lemma SoundLogging(l: LoggingInfo)
    requires Plain(l.bucket) && Plain(l.prefix)
    ensures Sound(LoggingXml(l), ROOT_SCOPE)
  {
    var outer := ROOT_SCOPE + {"Logging"};
    var xs := [Xml.Text("\n")];
    SoundText("\n", outer);
    SoundMore(xs, "  ", "Bucket", l.bucket, outer);
    SoundMore(xs + Leaf("  ", "Bucket", l.bucket), "  ", "Prefix", l.prefix, outer);
    SoundLine("", "Logging", xs + Leaf("  ", "Bucket", l.bucket) + Leaf("  ", "Prefix", l.prefix), ROOT_SCOPE);
  }

  lemma PlainFormatted(o: Option<string>)
    requires PlainOption(o)
    ensures Plain(Formatted(o))
  {
    WordIsPlain("None");
  }

  const IDENTITY_TAG := "OriginAccessIdentity"

  lemma IdentityTagName()
    ensures TagName(IDENTITY_TAG)
  {}

  lemma SoundIdentity(xs: seq<Xml>, identity: Option<Identity>, outer: set<string>)
    requires Sound(xs, outer) && "OriginAccessIdentity" !in outer
    requires identity.Some? ==> Plain(IdentityText(identity.value))
    ensures Sound(xs + IdentityXml(identity), outer)
  {
    if IdentityXml(identity) == [] {
      assert xs + [] == xs;
    } else {
      IdentityTagName();
      SoundMore(xs, "    ", IDENTITY_TAG, IdentityText(identity.value), outer);
    }
  }

  lemma SoundS3Fields(o: Origin, outer: set<string>)
    requires o.S3Origin? && PlainOrigin(o) && {"DNSName", "OriginAccessIdentity"} !! outer
    ensures Sound([Xml.Text("\n")] + Leaf("    ", "DNSName", Formatted(o.dnsName)) + IdentityXml(o.identity)
                  + [Xml.Text("  ")], outer)
  {
    var xs := [Xml.Text("\n")];
    SoundText("\n", outer);
    SoundText("  ", outer);
    PlainFormatted(o.dnsName);
    SoundMore(xs, "    ", "DNSName", Formatted(o.dnsName), outer);
    xs := xs + Leaf("    ", "DNSName", Formatted(o.dnsName));
    SoundIdentity(xs, o.identity, outer);
    SoundAppend(xs + IdentityXml(o.identity), [Xml.Text("  ")], outer);
  }

  lemma SoundS3Origin(o: Origin)
    requires o.S3Origin? && PlainOrigin(o)
    ensures Sound(OriginXml(o), ROOT_SCOPE)
  {
    SoundS3Fields(o, ROOT_SCOPE + {"S3Origin"});
    SoundLine("  ", "S3Origin", [Xml.Text("\n")] + Leaf("    ", "DNSName", Formatted(o.dnsName))
      + IdentityXml(o.identity) + [Xml.Text("  ")], ROOT_SCOPE);
  }

  lemma SoundPort(tag: string, p: Port, outer: set<string>)
    requires TagName(tag) && tag !in outer && p.Num?
    ensures Sound(Leaf("    ", tag, PortText(p)), outer)
  {
    PlainDecimal(p.n);
    SoundLeaf("    ", tag, PortText(p), outer);
  }

  lemma SoundPorts(p: Port, q: Port, outer: set<string>)
    requires p.Num? && q.Num? && "HTTPPort" !in outer && "HTTPSPort" !in outer
    ensures Sound(Leaf("    ", "HTTPPort", PortText(p)), outer) && Sound(Leaf("    ", "HTTPSPort", PortText(q)), outer)
  {
    SoundPort("HTTPPort", p, outer);
    SoundPort("HTTPSPort", q, outer);
  }

  lemma SoundCustomOrigin(o: Origin)
    requires o.CustomOrigin? && PlainOrigin(o) && o.httpPort.Num? && o.httpsPort.Num?
    ensures Sound(OriginXml(o), ROOT_SCOPE)
  {
    var outer := ROOT_SCOPE + {"CustomOrigin"};
    SoundCustomFields(o, outer);
    SoundLine("  ", "CustomOrigin", [Xml.Text("\n")] + Leaf("    ", "DNSName", Formatted(o.dnsName))
      + Leaf("    ", "HTTPPort", PortText(o.httpPort)) + Leaf("    ", "HTTPSPort", PortText(o.httpsPort))
      + Leaf("    ", "OriginProtocolPolicy", Formatted(o.policy)) + [Xml.Text("  ")], ROOT_SCOPE);
  }

  lemma SoundCustomFields(o: Origin, outer: set<string>)
    requires o.CustomOrigin? && PlainOrigin(o) && o.httpPort.Num? && o.httpsPort.Num?
    requires {"DNSName", "HTTPPort", "HTTPSPort", "OriginProtocolPolicy"} !! outer
    ensures Sound([Xml.Text("\n")] + Leaf("    ", "DNSName", Formatted(o.dnsName))
      + Leaf("    ", "HTTPPort", PortText(o.httpPort)) + Leaf("    ", "HTTPSPort", PortText(o.httpsPort))
      + Leaf("    ", "OriginProtocolPolicy", Formatted(o.policy)) + [Xml.Text("  ")], outer)
  {
    var xs := [Xml.Text("\n")];
    SoundText("\n", outer);
    SoundText("  ", outer);
    PlainFormatted(o.dnsName);
    PlainFormatted(o.policy);
    SoundPorts(o.httpPort, o.httpsPort, outer);
    SoundMore(xs, "    ", "DNSName", Formatted(o.dnsName), outer);
    xs := xs + Leaf("    ", "DNSName", Formatted(o.dnsName));
    SoundAppend(xs, Leaf("    ", "HTTPPort", PortText(o.httpPort)), outer);
    xs := xs + Leaf("    ", "HTTPPort", PortText(o.httpPort));
    SoundAppend(xs, Leaf("    ", "HTTPSPort", PortText(o.httpsPort)), outer);
    xs := xs + Leaf("    ", "HTTPSPort", PortText(o.httpsPort));
    SoundMore(xs, "    ", "OriginProtocolPolicy", Formatted(o.policy), outer);
    xs := xs + Leaf("    ", "OriginProtocolPolicy", Formatted(o.policy));
    SoundAppend(xs, [Xml.Text("  ")], outer);
  }

  lemma SoundComment(xs: seq<Xml>, comment: string)
    requires Sound(xs, ROOT_SCOPE) && Plain(comment)
    ensures Sound(xs + CommentXml(comment), ROOT_SCOPE)
  {
    if comment != "" {
      SoundMore(xs, "  ", "Comment", comment, ROOT_SCOPE);
    } else {
      assert xs + [] == xs;
    }
  }

  lemma SoundEnabled(xs: seq<Xml>, enabled: bool)
    requires Sound(xs, ROOT_SCOPE)
    ensures Sound(xs + Leaf("  ", "Enabled", EnabledText(enabled)), ROOT_SCOPE)
  {
    WordIsPlain(EnabledText(enabled));
    SoundMore(xs, "  ", "Enabled", EnabledText(enabled), ROOT_SCOPE);
  }

  lemma SoundScalars(c: Config)
    requires PlainValues(c)
    ensures Sound(Scalars(c), ROOT_SCOPE)
  {
    var xs := Leaf("  ", "CallerReference", c.callerReference);
    SoundLeaf("  ", "CallerReference", c.callerReference, ROOT_SCOPE);
    SoundCnames(c.cnames);
    SoundAppend(xs, CnamesXml(c.cnames), ROOT_SCOPE);
    SoundComment(xs + CnamesXml(c.cnames), c.comment);
    SoundEnabled(xs + CnamesXml(c.cnames) + CommentXml(c.comment), c.enabled);
  }

  lemma SoundOptionalSigners(signers: Option<seq<string>>)
    requires signers.Some? ==> forall i :: 0 <= i < |signers.value| ==> Plain(signers.value[i])
    ensures Sound(OptionalSigners(signers), ROOT_SCOPE)
  {
    if signers.Some? {
      SoundTrustedSigners(signers.value);
    }
  }

  lemma SoundOptionalLogging(logging: Option<LoggingInfo>)
    requires logging.Some? ==> Plain(logging.value.bucket) && Plain(logging.value.prefix)
    ensures Sound(OptionalLogging(logging), ROOT_SCOPE)
  {
    if logging.Some? {
      SoundLogging(logging.value);
    }
  }

  lemma SoundOptionalRoot(root: Option<string>)
    requires PlainOption(root)
    ensures Sound(OptionalRoot(root), ROOT_SCOPE)
  {
    if root.Some? {
      SoundLeaf("", "DefaultRootObject", root.value, ROOT_SCOPE);
    }
  }

  lemma SoundOptional(c: Config)
    requires PlainValues(c)
    ensures Sound(Optional(c), ROOT_SCOPE)
  {
    var xs, ys, zs := OptionalSigners(c.trustedSigners), OptionalLogging(c.logging), OptionalRoot(c.defaultRootObject);
    SoundOptionalSigners(c.trustedSigners);
    SoundOptionalLogging(c.logging);
    SoundOptionalRoot(c.defaultRootObject);
    SoundAppend(xs, ys, ROOT_SCOPE);
    SoundAppend(xs + ys, zs, ROOT_SCOPE);
  }

  lemma SoundBody(c: Config)
    requires PlainValues(c) && Formattable(c)
    ensures Sound(Body(c), ROOT_SCOPE)
  {
    var xs := [Xml.Text("\n")];
    SoundText("\n", ROOT_SCOPE);
    var origin := if c.origin.Some? then OriginXml(c.origin.value) else [];
    if c.origin.Some? {
      if c.origin.value.S3Origin? {
        SoundS3Origin(c.origin.value);
      } else {
        SoundCustomOrigin(c.origin.value);
      }
    }
    SoundAppend(xs, origin, ROOT_SCOPE);
    SoundScalars(c);
    SoundAppend(xs + origin, Scalars(c), ROOT_SCOPE);
    SoundOptional(c);
    SoundAppend(xs + origin + Scalars(c), Optional(c), ROOT_SCOPE);
  }

  // ---- main results ----

  // The config is the handler's root node; it declines the root element.
  function Tree(c: Config): seq<Xml> {
    [Elem(ROOT_TAG, Body(c))]
  }

  lemma TreeEvents(c: Config)
    ensures [Start(ROOT_TAG)] + (Pieces(Body(c)) + [End(ROOT_TAG)]) == Pieces(Tree(c))
  {
    assert Tree(c)[1..] == [];
    AppendNothing(PiecesOne(Elem(ROOT_TAG, Body(c))));
  }

  lemma TreeNests(c: Config)
    requires Sound(Body(c), ROOT_SCOPE)
    ensures NamesNest(Tree(c), {"root"})
  {
    assert {"root"} + {ROOT_TAG} == ROOT_SCOPE;
  }

  lemma WalkTree(h: Parsed, c: Config)
    requires h.config == NewConfig(h.config.callerReference) && Formattable(c)
    ensures Walk(Handlers(), h, ConfigNode, Tree(c), "").0.config == Canon(c)
  {
    WalkBody(h, c, h.config.callerReference);
    assert Tree(c)[1..] == [];
    assert StartNode(h, ConfigNode, ROOT_TAG) == (h, None);
  }

  function InitialState(uuid: string): State<Parsed, NodeRef> {
    Running(Parsed(NewConfig(uuid), map[]), [("root", ConfigNode)], "")
  }

  // The config a parse of the text builds; None if the parse raises.
  function ParseResult(xml: string, uuid: string): Option<Config> {
    var events := Lex(xml, 0);
    if events.None? then None
    else
      var s := Run(Handlers(), InitialState(uuid), events.value);
      if s.IndexError? then None else Some(s.heap.config)
  }

  method ParseConfig(xml: string, uuid: string) returns (r: Option<Config>)
    ensures r == ParseResult(xml, uuid)
  {
    var events := Lex(xml, 0);
    if events.None? {
      return None;
    }
    var handler := new XmlHandler<Parsed, NodeRef>(Handlers(), Parsed(NewConfig(uuid), map[]), ConfigNode);
    var ok := handler.Parse(events.value);
    if !ok {
      return None;
    }
    r := Some(handler.heap.config);
  }

  // The printed text is read as the events of the printed tree.
  lemma PrintedEvents(c: Config)
    requires PlainValues(c) && Formattable(c)
    ensures Lex(Document(c), 0) == Some(Pieces(Tree(c)))
  {
    SoundBody(c);
    HeaderIsMarkup();
    LexWrapped(DECLARATION, ROOT_TAG, NAMESPACE, Body(c));
    TreeEvents(c);
  }

  // The handler builds the canonical form from these events.
  lemma TreeParse(c: Config, uuid: string)
    requires PlainValues(c) && Formattable(c)
    ensures var s := Run(Handlers(), InitialState(uuid), Pieces(Tree(c)));
      s.Running? && s.nodes == [("root", ConfigNode)] && s.heap.config == Canon(c)
  {
    var h := Parsed(NewConfig(uuid), map[]);
    SoundBody(c);
    TreeNests(c);
    NestingIsDisciplined(Handlers(), h, "root", ConfigNode, Tree(c), {"root"});
    ParseIsWalk(Handlers(), h, ConfigNode, Tree(c));
    RunPieces(Handlers(), InitialState(uuid), Tree(c));
    WalkTree(h, c);
  }

  // The printed text is read, restores the handler's stack, and yields the
  // config's canonical form.
  lemma PrintThenParse(c: Config, uuid: string)
    requires PlainValues(c) && Formattable(c)
    ensures Lex(Document(c), 0).Some?
    ensures var s := Run(Handlers(), InitialState(uuid), Lex(Document(c), 0).value);
      s.Running? && s.nodes == [("root", ConfigNode)] && s.heap.config == Canon(c)
  {
    PrintedEvents(c);
    TreeParse(c, uuid);
  }

  // What printing and parsing can lose, as a caller could check beforehand.
  predicate Recoverable(c: Config) {
    && (c.origin.Some? ==> match c.origin.value
        case S3Origin(dnsName, identity) => dnsName.Some? && (identity.Some? ==> identity.value.Uri? && identity.value.uri != "")
        case CustomOrigin(dnsName, _, _, policy) => dnsName.Some? && policy.Some?)
    && c.trustedSigners != Some([])
    && c.defaultRootObject != Some("")
  }

  // Every field comes back exactly when the config is Recoverable.
  lemma RoundTripIff(c: Config, uuid: string)
    requires PlainValues(c) && Formattable(c)
    ensures ParseResult(Document(c), uuid) == Some(c) <==> Recoverable(c)
  {
    PrintThenParse(c, uuid);
    CanonIff(c);
  }

  // It does lose something: an identity given as an object comes back as the
  // URI that was printed for it.
  lemma IdentityObjectIsLost(reference: string, dnsName: string, id: string, uuid: string)
    requires Plain(reference) && Plain(dnsName) && forall i :: 0 <= i < |id| ==> NameChar(id[i])
    ensures var o := S3Origin(Some(dnsName), Some(IdentityObject(id)));
      var c := NewConfig(reference).(origin := Some(o));
      && PlainValues(c) && Formattable(c)
      && ParseResult(Document(c), uuid) == Some(c.(origin := Some(o.(identity := Some(Uri(IdentityText(IdentityObject(id))))))))
      && ParseResult(Document(c), uuid) != Some(c)
  {
    var o := S3Origin(Some(dnsName), Some(IdentityObject(id)));
    var c := NewConfig(reference).(origin := Some(o));
    IdentityIsPlain(id);
    PrintThenParse(c, uuid);
    assert CanonOrigin(o) == S3Origin(Some(dnsName), Some(Uri(IdentityText(IdentityObject(id)))));
  }

  lemma AnIdentityIsLost(uuid: string) returns (c: Config)
    ensures PlainValues(c) && Formattable(c) && ParseResult(Document(c), uuid) != Some(c)
  {
    c := NewConfig("r").(origin := Some(S3Origin(Some("d"), Some(IdentityObject("i")))));
    IdentityObjectIsLost("r", "d", "i", uuid);
  }

  // The path an identity's id is printed under stands for itself.
  lemma IdentityIsPlain(id: string)
    requires forall i :: 0 <= i < |id| ==> NameChar(id[i])
    ensures Plain(IdentityText(IdentityObject(id)))
  {
    var s := IdentityText(IdentityObject(id));
    assert forall i :: 0 <= i < |"origin-access-identity/cloudfront/"| ==>
      NameChar("origin-access-identity/cloudfront/"[i]) || "origin-access-identity/cloudfront/"[i] in ['-', '/'];
    WordIsPlain(s);
  }

  lemma CanonIff(c: Config)
    ensures Canon(c) == c <==> Recoverable(c)
  {}
}
