/**
  Storage URIs: the parser boto.storage_uri with its regular expressions, and
  the strings boto.storage_uri.BucketStorageUri builds and keeps up to date.
*/
module StorageUris {
  import opened Wrappers
  import opened Text
  import opened Numerals

  // ---- the parser ----

  // The index of the last c in s, or -1.
  function LastIndex(s: string, c: char): (i: int)
    ensures -1 <= i < |s| && (i >= 0 ==> s[i] == c)
    ensures forall j :: i < j < |s| ==> s[j] != c
  {
    if s == [] then -1
    else if s[|s| - 1] == c then |s| - 1
    else LastIndex(s[..|s| - 1], c)
  }

  // The index of the first "://" in s, or -1.
  function SchemeEnd(s: string): (i: int)
    ensures i == -1 || 0 <= i <= |s| - 3
  {
    if |s| < 3 then -1
    else if s[0] == ':' && s[1] == '/' && s[2] == '/' then 0
    else
      var i := SchemeEnd(s[1..]);
      if i == -1 then -1 else i + 1
  }

  // path.split('/', 1): what stands before the first slash, and after it.
  function BeforeSlash(path: string): string {
    if path == [] || path[0] == '/' then [] else [path[0]] + BeforeSlash(path[1..])
  }

  function AfterSlash(path: string): string {
    if path == [] then [] else if path[0] == '/' then path[1..] else AfterSlash(path[1..])
  }

  predicate AlphaNum(c: char) {
    'a' <= c <= 'z' || 'A' <= c <= 'Z' || '0' <= c <= '9'
  }

  predicate BucketChar(c: char) {
    AlphaNum(c) || c == '.' || c == '_' || c == '-'
  }

  predicate AllBucketChars(s: string) {
    forall i :: 0 <= i < |s| ==> BucketChar(s[i])
  }

  // A '$' also matches before a final newline.
  function WithoutFinalNewline(s: string): string {
    if s != [] && s[|s| - 1] == '\n' then s[..|s| - 1] else s
  }

  // BUCKET_NAME_RE.match
  predicate BucketNameRe(s: string) {
    var b := WithoutFinalNewline(s);
    && 3 <= |b| <= 255
    && AlphaNum(b[0]) && AlphaNum(b[|b| - 1])
    && AllBucketChars(b)
  }

  predicate DnsChar(c: char) {
    c == '-' || c == '_' || 'a' <= c <= 'z' || '0' <= c <= '9'
  }

  // TOO_LONG_DNS_NAME_COMP.search
  predicate TooLongDnsNameComp(s: string) {
    exists i :: 0 <= i <= |s| - 64 && DnsRun(s, i)
  }

  predicate DnsRun(s: string, i: nat)
    requires i + 64 <= |s|
  {
    AllDnsChars(s[i..i + 64])
  }

  predicate AllDnsChars(s: string) {
    forall i :: 0 <= i < |s| ==> DnsChar(s[i])
  }

  predicate ValidBucket(s: string) {
    BucketNameRe(s) && !TooLongDnsNameComp(s)
  }

  // The part of a path that GENERATION_RE and VERSION_RE can match: '.' stops
  // at newlines and '$' stands at the end or before a final newline.
  function LastLine(path: string): string {
    FinalLine(WithoutFinalNewline(path))
  }

  function FinalLine(s: string): (line: string)
    ensures '\n' !in line
  {
    if '\n' in s then FinalLine(s[1..]) else s
  }

  // GENERATION_RE.search: the versionless part and the digits.
  function MatchGeneration(path: string): (m: Option<(string, string)>)
    ensures m.Some? ==> m.value.1 != [] && AllDigits(m.value.1)
  {
    GenerationIn(LastLine(path))
  }

  function GenerationIn(line: string): (m: Option<(string, string)>)
    ensures m.Some? ==> m.value.1 != [] && AllDigits(m.value.1)
  {
    var i := LastIndex(line, '#');
    if i >= 1 && i + 1 < |line| && AllDigits(line[i + 1..]) then Some((line[..i], line[i + 1..])) else None
  }

  // VERSION_RE.search: the versionless part and the version id.
  function MatchVersion(path: string): (m: Option<(string, string)>)
    ensures m.Some? ==> m.value.1 != []
  {
    VersionIn(LastLine(path))
  }

  function VersionIn(line: string): (m: Option<(string, string)>)
    ensures m.Some? ==> m.value.1 != []
  {
    if |line| < 3 then None
    else
      var i := LastIndex(line[..|line| - 1], '#');
      if i >= 1 then Some((line[..i], line[i + 1..])) else None
  }

  datatype Uri = Uri(scheme: string, bucketName: string, objectName: string, versionId: Option<string>, generation: Option<int>)

  datatype Parsed = FileUri(path: string, isStream: bool) | BucketUri(uri: Uri)

  datatype InvalidUri = UnrecognizedScheme(scheme: string) | InvalidBucketName(bucketName: string)

  // int(digits)
  function IntOf(digits: string): int
    requires digits != [] && AllDigits(digits)
  {
    ParseDigits(digits);
    ParseInt(digits).value
  }

  function ParseBucketUri(scheme: string, path: string): Uri
    requires scheme == "s3" || scheme == "gs"
  {
    var bucket := BeforeSlash(path);
    if scheme == "gs" then
      match MatchGeneration(path)
      case Some((versionless, digits)) =>
        Uri(scheme, bucket, AfterSlash(versionless), None, Some(IntOf(digits)))
      case None => Uri(scheme, bucket, AfterSlash(path), None, None)
    else
      match MatchVersion(path)
      case Some((versionless, version)) => Uri(scheme, bucket, AfterSlash(versionless), Some(version), None)
      case None => Uri(scheme, bucket, AfterSlash(path), None, None)
  }

  function ParseUri(s: string, defaultScheme: string, validate: bool): Result<Parsed, InvalidUri> {
    var end := SchemeEnd(s);
    if end == -1 then ParseParts(Lower(defaultScheme), s, validate)
    else ParseParts(Lower(s[..end]), s[end + 3..], validate)
  }

  function ParseParts(scheme: string, path: string, validate: bool): Result<Parsed, InvalidUri> {
    if scheme != "file" && scheme != "s3" && scheme != "gs" then Err(UnrecognizedScheme(scheme))
    else if scheme == "file" then Ok(FileUri(path, path == "-"))
    else
      var bucket := BeforeSlash(path);
      if validate && bucket != "" && !ValidBucket(bucket) then Err(InvalidBucketName(bucket))
      else Ok(BucketUri(ParseBucketUri(scheme, path)))
  }

  // ---- the printer ----

  function Versionless(u: Uri): string {
    u.scheme + "://" + u.bucketName + "/" + u.objectName
  }

  // What follows '#': a nonzero generation, or else a nonempty version id.
  function VersionText(u: Uri): Option<string> {
    if u.generation.Some? && u.generation.value != 0 then Some(Decimal(u.generation.value))
    else if u.versionId.Some? && u.versionId.value != "" then u.versionId
    else None
  }

  // The uri of a newly made BucketStorageUri.
  function Print(u: Uri): string {
    if u.bucketName != "" && u.objectName != "" then
      Versionless(u) + (if VersionText(u).Some? then "#" + VersionText(u).value else "")
    else if u.bucketName != "" then u.scheme + "://" + u.bucketName + "/"
    else u.scheme + "://"
  }

  class BucketStorageUri {
    const scheme: string
    const bucketName: string
    const objectName: string
    var versionId: Option<string>
    var generation: Option<int>
    const isVersionSpecific: bool
    var versionlessUri: Option<string>
    var versionSpecificUri: Option<string>
    var uri: string

    ghost function Fields(): Uri
      reads this
    {
      Uri(scheme, bucketName, objectName, versionId, generation)
    }

    // The attribute that _build_uri_strings reads has been set.
    ghost predicate Valid()
      reads this
    {
      isVersionSpecific && bucketName != "" && objectName != "" ==> versionSpecificUri.Some?
    }

    constructor (u: Uri)
      ensures Valid() && Fields() == u && uri == Print(u)
      ensures isVersionSpecific == VersionText(u).Some?
      ensures u.bucketName != "" && u.objectName != "" && VersionText(u).Some? ==> versionSpecificUri == Some(Print(u))
    {
      scheme, bucketName, objectName := u.scheme, u.bucketName, u.objectName;
      versionId, generation := u.versionId, u.generation;
      isVersionSpecific := (u.generation.Some? && u.generation.value != 0) || (u.versionId.Some? && u.versionId.value != "");
      versionlessUri, versionSpecificUri, uri := None, None, "";
      new;
      BuildUriStrings();
    }

    method BuildUriStrings()
      requires Valid() || VersionText(Fields()).Some?
      modifies this`versionlessUri, this`versionSpecificUri, this`uri
      ensures Valid()
      ensures versionlessUri == if bucketName != "" && objectName != "" then Some(Versionless(Fields())) else old(versionlessUri)
      ensures versionSpecificUri ==
        if bucketName != "" && objectName != "" && VersionText(Fields()).Some?
        then Some(Versionless(Fields()) + "#" + VersionText(Fields()).value) else old(versionSpecificUri)
      ensures uri ==
        if bucketName == "" then scheme + "://"
        else if objectName == "" then scheme + "://" + bucketName + "/"
        else if isVersionSpecific then versionSpecificUri.value
        else Versionless(Fields())
    {
      if bucketName != "" && objectName != "" {
        var versionless := scheme + "://" + bucketName + "/" + objectName;
        versionlessUri := Some(versionless);
        if generation.Some? && generation.value != 0 {
          versionSpecificUri := Some(versionless + "#" + Decimal(generation.value));
        } else if versionId.Some? && versionId.value != "" {
          versionSpecificUri := Some(versionless + "#" + versionId.value);
        }
        if isVersionSpecific {
          uri := versionSpecificUri.value;
        } else {
          uri := versionless;
        }
      } else if bucketName != "" {
        uri := scheme + "://" + bucketName + "/";
      } else {
        uri := scheme + "://";
      }
    }

    method UpdateFromValues(versionId: Option<string>, generation: Option<int>)
      requires Valid()
      modifies this
      ensures Valid()
      ensures Fields() == old(Fields()).(versionId := versionId, generation := generation)
      ensures (uri, versionSpecificUri) ==
        Updated(old(Fields()), isVersionSpecific, old(versionSpecificUri), versionId, generation)
    {
      this.versionId, this.generation := versionId, generation;
      BuildUriStrings();
    }
  }

  // The uri and version_specific_uri after one update.
  function Updated(u: Uri, isVersionSpecific: bool, versionSpecific: Option<string>,
                   versionId: Option<string>, generation: Option<int>): (string, Option<string>)
  {
    var u' := u.(versionId := versionId, generation := generation);
    if u.bucketName == "" || u.objectName == "" then (Print(u'), versionSpecific)
    else
      var vs := if VersionText(u').Some? then Some(Versionless(u') + "#" + VersionText(u').value) else versionSpecific;
      (if isVersionSpecific && vs.Some? then vs.value else Versionless(u'), vs)
  }

  // ---- a URI keeps its kind ----

  datatype Version = Version(versionId: Option<string>, generation: Option<int>)

  function With(u: Uri, v: Version): Uri {
    u.(versionId := v.versionId, generation := v.generation)
  }

  // The uri of an object after a series of updates.
  function UriAfter(u: Uri, updates: seq<Version>): (string, Option<string>) {
    if updates == [] then (Print(u), if VersionText(u).Some? then Some(Print(u)) else None)
    else
      var n := |updates| - 1;
      Updated(if n > 0 then With(u, updates[n - 1]) else u, VersionText(u).Some?, UriAfter(u, updates[..n]).1,
              updates[n].versionId, updates[n].generation)
  }

  // The version text of the last update that carries one, or the first one's.
  function LastVersion(u: Uri, updates: seq<Version>): (v: Option<string>)
    ensures VersionText(u).Some? ==> v.Some?
  {
    if updates == [] then VersionText(u)
    else
      var v := VersionText(With(u, updates[|updates| - 1]));
      if v.Some? then v else LastVersion(u, updates[..|updates| - 1])
  }

  // Whatever updates follow, the uri of an object named without a version
  // stays versionless, and that of one named with a version ends in the last
  // version given.
  lemma {:induction false} UriKeepsItsKind(u: Uri, updates: seq<Version>)
    requires u.bucketName != "" && u.objectName != ""
    ensures UriAfter(u, updates).0 ==
      if VersionText(u).Some? then Versionless(u) + "#" + LastVersion(u, updates).value else Versionless(u)
    ensures VersionText(u).Some? ==> UriAfter(u, updates).1 == Some(UriAfter(u, updates).0)
  {
    if updates != [] {
      var n := |updates| - 1;
      UriKeepsItsKind(u, updates[..n]);
      assert Versionless(With(u, updates[n])) == Versionless(u);
    } else {
      assert Versionless(u) + "" == Versionless(u);
      assert VersionText(u).Some? ==>
        Versionless(u) + "#" + VersionText(u).value == Versionless(u) + ("#" + VersionText(u).value);
    }
  }

  // ---- what the parser accepts ----

  predicate SeparatorAt(s: string, j: nat) {
    j + 3 <= |s| && s[j..j + 3] == "://"
  }

  predicate NoSeparator(s: string) {
    forall j :: 0 <= j < |s| ==> !SeparatorAt(s, j)
  }

  // A scheme is what stands before the first "://", or else the default.
  ghost predicate Splits(s: string, defaultScheme: string, scheme: string, path: string) {
    if NoSeparator(s) then scheme == defaultScheme && path == s
    else s == scheme + "://" + path && NoSeparator(scheme + ":/")
  }

  lemma SchemeEndIsFirst(s: string)
    ensures SchemeEnd(s) == -1 <==> NoSeparator(s)
    ensures var i := SchemeEnd(s); i >= 0 ==> SeparatorAt(s, i) && forall j :: 0 <= j < i ==> !SeparatorAt(s, j)
  {
    SeparatorFound(s);
    forall j | 0 <= j < |s| && (SchemeEnd(s) == -1 || j < SchemeEnd(s)) ensures !SeparatorAt(s, j) {
      NoneBefore(s, j);
    }
  }

  lemma {:induction false} SeparatorFound(s: string)
    ensures SchemeEnd(s) >= 0 ==> SeparatorAt(s, SchemeEnd(s))
  {
    if |s| >= 3 {
      SeparatorFirst(s);
      SeparatorFound(s[1..]);
      if SchemeEnd(s) > 0 {
        SeparatorNext(s, SchemeEnd(s));
      }
    }
  }

  lemma {:induction false} NoneBefore(s: string, j: nat)
    requires j < |s| && (SchemeEnd(s) == -1 || j < SchemeEnd(s))
    ensures !SeparatorAt(s, j)
  {
    if |s| >= 3 {
      if j == 0 {
        SeparatorFirst(s);
      } else {
        SeparatorNext(s, j);
        NoneBefore(s[1..], j - 1);
      }
    }
  }

  lemma SeparatorFirst(s: string)
    requires |s| >= 3
    ensures SeparatorAt(s, 0) <==> s[0] == ':' && s[1] == '/' && s[2] == '/'
  {
    assert s[0..3] == [s[0], s[1], s[2]];
  }

  lemma SeparatorNext(s: string, j: nat)
    requires 0 < j < |s|
    ensures SeparatorAt(s, j) <==> SeparatorAt(s[1..], j - 1)
  {
    if j + 3 <= |s| {
      assert s[j..j + 3] == s[1..][j - 1..j + 2];
    }
  }

  // Every string splits, and how it splits decides how it is parsed.
  lemma SplitExists(s: string, defaultScheme: string) returns (scheme: string, path: string)
    ensures Splits(s, defaultScheme, scheme, path)
  {
    SchemeEndIsFirst(s);
    var end := SchemeEnd(s);
    if end == -1 {
      scheme, path := defaultScheme, s;
    } else {
      scheme, path := s[..end], s[end + 3..];
      assert s == scheme + "://" + path;
      forall j | 0 <= j < |scheme + ":/"| ensures !SeparatorAt(scheme + ":/", j) {
        SeparatorBefore(scheme, path, j);
      }
    }
  }

  lemma SplitDecides(s: string, defaultScheme: string, scheme: string, path: string, validate: bool)
    requires Splits(s, defaultScheme, scheme, path)
    ensures ParseUri(s, defaultScheme, validate) == ParseParts(Lower(scheme), path, validate)
  {
    SchemeEndIsFirst(s);
    if !NoSeparator(s) {
      SplitAtFirst(scheme, path);
    }
  }

  lemma SeparatorBefore(scheme: string, path: string, j: nat)
    ensures SeparatorAt(scheme + ":/", j) <==> j < |scheme| && SeparatorAt(scheme + "://" + path, j)
  {
    var s, t := scheme + "://" + path, scheme + ":/";
    assert t == s[..|t|];
    if j + 3 <= |t| {
      assert t[j..j + 3] == s[j..j + 3];
    }
  }

  lemma SplitAtFirst(scheme: string, path: string)
    requires NoSeparator(scheme + ":/")
    ensures var s := scheme + "://" + path;
      SchemeEnd(s) == |scheme| && s[..|scheme|] == scheme && s[|scheme| + 3..] == path
  {
    var s := scheme + "://" + path;
    SchemeEndIsFirst(s);
    assert SeparatorAt(s, |scheme|) by { assert s[|scheme|..|scheme| + 3] == "://"; }
    forall j | 0 <= j < |scheme| ensures !SeparatorAt(s, j) {
      SeparatorBefore(scheme, path, j);
    }
  }

  predicate LetterOrDigit(c: char) {
    c in CAPITALS || c in SMALL_LETTERS || c in "0123456789"
  }

  // 64 characters in a row from i on are small letters, digits, '-' or '_'.
  predicate LongRun(b: string, i: nat) {
    i + 64 <= |b| && forall k :: i <= k < i + 64 ==> RunChar(b[k])
  }

  predicate RunChar(c: char) {
    c in SMALL_LETTERS || c in "0123456789" || c in "-_"
  }

  // 3 to 255 letters, digits, dots, dashes and underscores, with a letter or
  // digit at both ends.
  predicate PlainName(t: string) {
    && 3 <= |t| <= 255
    && LetterOrDigit(t[0]) && LetterOrDigit(t[|t| - 1])
    && forall k :: 0 <= k < |t| ==> LetterOrDigit(t[k]) || t[k] in "._-"
  }

  // The rule for bucket names; a final newline is let through.
  ghost predicate NameRule(b: string) {
    && (exists t :: (b == t || b == t + "\n") && PlainName(t))
    && (forall i :: 0 <= i < |b| ==> !LongRun(b, i))
  }

  lemma NameRuleIff(b: string)
    ensures ValidBucket(b) <==> NameRule(b)
  {
    BucketNameIff(b);
    LongRunIff(b);
  }

  lemma BucketNameIff(b: string)
    ensures BucketNameRe(b) <==> exists t :: (b == t || b == t + "\n") && PlainName(t)
  {
    var w := WithoutFinalNewline(b);
    PlainNameIff(w);
    NewlineOrNot(b);
    forall t | (b == t || b == t + "\n") && PlainName(t) ensures t == w {
      PlainEnd(t);
      NewlineGone(t);
    }
  }

  lemma NewlineOrNot(b: string)
    ensures b == WithoutFinalNewline(b) || b == WithoutFinalNewline(b) + "\n"
  {}

  lemma NewlineGone(t: string)
    ensures WithoutFinalNewline(t + "\n") == t
    ensures t != "" && t[|t| - 1] != '\n' ==> WithoutFinalNewline(t) == t
  {}

  lemma PlainEnd(t: string)
    requires PlainName(t)
    ensures t[|t| - 1] != '\n'
  {
    LetterIff(t[|t| - 1]);
  }

  lemma PlainNameIff(t: string)
    ensures PlainName(t) <==> 3 <= |t| <= 255 && AlphaNum(t[0]) && AlphaNum(t[|t| - 1]) && AllBucketChars(t)
  {
    forall k | 0 <= k < |t| ensures (LetterOrDigit(t[k]) <==> AlphaNum(t[k])) && (t[k] in "._-" <==> t[k] in {'.', '_', '-'}) {
      LetterIff(t[k]);
      DigitIff(t[k]);
    }
  }

  lemma LongRunIff(b: string)
    ensures TooLongDnsNameComp(b) <==> exists i :: 0 <= i < |b| && LongRun(b, i)
  {
    forall i | 0 <= i <= |b| - 64 ensures DnsRun(b, i) <==> LongRun(b, i) {
      RunIff(b, i);
    }
  }

  lemma RunIff(b: string, i: nat)
    requires i + 64 <= |b|
    ensures DnsRun(b, i) <==> LongRun(b, i)
  {
    var w := b[i..i + 64];
    forall k | 0 <= k < 64 ensures RunChar(w[k]) <==> DnsChar(w[k]) {
      LetterIff(w[k]);
      DigitIff(w[k]);
    }
    assert forall k :: i <= k < i + 64 ==> b[k] == w[k - i];
    if LongRun(b, i) {
      forall k | 0 <= k < 64 ensures DnsChar(w[k]) {
        assert RunChar(b[i + k]);
      }
    }
  }

  // b stands before the first slash of the path.
  predicate Heads(b: string, path: string) {
    '/' !in b && (path == b || b + "/" <= path)
  }

  lemma HeadsIff(b: string, path: string)
    ensures Heads(b, path) <==> b == BeforeSlash(path)
  {
    BeforeSlashSplits(path);
    if path == b && '/' !in b {
      NoSlash(b);
    }
    if b + "/" <= path && '/' !in b {
      assert path == b + "/" + path[|b| + 1..];
      SlashAt(b, path[|b| + 1..]);
    }
  }

  lemma {:induction false} BeforeSlashSplits(path: string)
    ensures var b := BeforeSlash(path); '/' !in b && (path == b || b + "/" <= path)
  {
    if path != [] && path[0] != '/' {
      BeforeSlashSplits(path[1..]);
      assert path == [path[0]] + path[1..];
    }
  }

  // What is refused, and what a URI that is not refused becomes, for the scheme
  // in small letters and the path that it splits into.
  lemma UnrecognizedIff(s: string, defaultScheme: string, validate: bool, scheme: string, path: string, x: string)
    requires Splits(s, defaultScheme, scheme, path)
    ensures ParseUri(s, defaultScheme, validate) == Err(UnrecognizedScheme(x)) <==>
      x == Lower(scheme) && x != "file" && x != "s3" && x != "gs"
  {
    SplitDecides(s, defaultScheme, scheme, path, validate);
  }

  lemma InvalidBucketIff(s: string, defaultScheme: string, validate: bool, scheme: string, path: string, b: string)
    requires Splits(s, defaultScheme, scheme, path)
    ensures ParseUri(s, defaultScheme, validate) == Err(InvalidBucketName(b)) <==>
      validate && (Lower(scheme) == "s3" || Lower(scheme) == "gs") && b != "" && Heads(b, path) && !NameRule(b)
  {
    SplitDecides(s, defaultScheme, scheme, path, validate);
    HeadsIff(b, path);
    NameRuleIff(b);
    InvalidPartsIff(Lower(scheme), path, validate, b);
  }

  lemma InvalidPartsIff(scheme: string, path: string, validate: bool, b: string)
    ensures ParseParts(scheme, path, validate) == Err(InvalidBucketName(b)) <==>
      validate && (scheme == "s3" || scheme == "gs") && b != "" && b == BeforeSlash(path) && !ValidBucket(b)
  {}

  lemma FileUriIff(s: string, defaultScheme: string, validate: bool, scheme: string, path: string)
    requires Splits(s, defaultScheme, scheme, path)
    ensures ParseUri(s, defaultScheme, validate) == Ok(FileUri(path, path == "-")) <==> Lower(scheme) == "file"
  {
    SplitDecides(s, defaultScheme, scheme, path, validate);
  }

  lemma BucketUriParsed(s: string, defaultScheme: string, validate: bool, scheme: string, path: string, b: string)
    requires Splits(s, defaultScheme, scheme, path) && (Lower(scheme) == "s3" || Lower(scheme) == "gs")
    requires Heads(b, path) && (b == "" || NameRule(b) || !validate)
    ensures ParseUri(s, defaultScheme, validate) == Ok(BucketUri(ParseBucketUri(Lower(scheme), path)))
  {
    SplitDecides(s, defaultScheme, scheme, path, validate);
    HeadsIff(b, path);
    NameRuleIff(b);
    PartsParsed(Lower(scheme), path, validate);
  }

  lemma PartsParsed(scheme: string, path: string, validate: bool)
    requires scheme == "s3" || scheme == "gs"
    requires BeforeSlash(path) == "" || ValidBucket(BeforeSlash(path)) || !validate
    ensures ParseParts(scheme, path, validate) == Ok(BucketUri(ParseBucketUri(scheme, path)))
  {}

  // A missing scheme is as if the default stood there, in small letters.
  lemma DefaultSchemeIsPrefix(s: string, scheme: string, other: string, validate: bool)
    requires NoSeparator(s) && (Lower(scheme) == "file" || Lower(scheme) == "s3" || Lower(scheme) == "gs")
    ensures ParseUri(s, scheme, validate) == ParseUri(Lower(scheme) + "://" + s, other, validate)
  {
    SchemeEndIsFirst(s);
    ParseWithScheme(Lower(scheme), s, other, validate);
  }

  lemma ParseWithScheme(scheme: string, path: string, defaultScheme: string, validate: bool)
    requires scheme == "file" || scheme == "s3" || scheme == "gs"
    ensures ParseUri(scheme + "://" + path, defaultScheme, validate) == ParseParts(scheme, path, validate)
  {
    var s := scheme + "://" + path;
    LowerScheme(scheme);
    SchemeEndAt(scheme, path);
    assert s[..|scheme|] == scheme && s[|scheme| + 3..] == path;
  }

  // ---- the round trip ----

  // Where the parser's versions would be found in an object name.
  predicate LooksVersioned(name: string) {
    name != "" && '#' in name[..|name| - 1]
  }

  predicate LooksGenerated(name: string) {
    var i := LastIndex(name, '#');
    i >= 0 && i + 1 < |name| && AllDigits(name[i + 1..])
  }

  // A caller can tell beforehand whether the printed URI parses back.
  predicate Recoverable(u: Uri) {
    if u.bucketName == "" || u.objectName == "" then
      u.versionId.None? && u.generation.None? && (u.bucketName == "" ==> u.objectName == "")
    else if u.scheme == "s3" then
      && u.generation.None?
      && (if u.versionId.None? then !LooksVersioned(u.objectName)
          else u.versionId.value != "" && !LooksVersioned(u.versionId.value))
    else
      && u.versionId.None?
      && (if u.generation.None? then !LooksGenerated(u.objectName) else u.generation.value > 0)
  }

  predicate OneLine(s: string) {
    '\n' !in s
  }

  // Valid bucket names and text on one line.
  predicate Printable(u: Uri) {
    && (u.scheme == "s3" || u.scheme == "gs")
    && (u.bucketName == "" || (ValidBucket(u.bucketName) && OneLine(u.bucketName)))
    && OneLine(u.objectName)
    && (u.versionId.Some? ==> OneLine(u.versionId.value))
  }

  lemma {:induction false} SchemeEndAt(scheme: string, path: string)
    requires ':' !in scheme
    ensures SchemeEnd(scheme + "://" + path) == |scheme|
  {
    var s := scheme + "://" + path;
    if scheme == [] {
    } else {
      assert s[0] == scheme[0];
      assert s[1..] == scheme[1..] + "://" + path;
      SchemeEndAt(scheme[1..], path);
    }
  }

  lemma {:induction false} SlashAt(a: string, b: string)
    requires '/' !in a
    ensures BeforeSlash(a + "/" + b) == a && AfterSlash(a + "/" + b) == b
  {
    var s := a + "/" + b;
    if a != [] {
      assert s[0] == a[0] && s[1..] == a[1..] + "/" + b;
      SlashAt(a[1..], b);
    } else {
      assert s[1..] == b;
    }
  }

  lemma {:induction false} NoSlash(a: string)
    requires '/' !in a
    ensures BeforeSlash(a) == a && AfterSlash(a) == []
  {
    if a == [] {
    } else {
      NoSlash(a[1..]);
    }
  }

  lemma LastIndexUnique(s: string, c: char, i: int)
    requires -1 <= i < |s| && (i >= 0 ==> s[i] == c)
    requires forall j :: i < j < |s| ==> s[j] != c
    ensures LastIndex(s, c) == i
  {}

  lemma LastIndexAppend(a: string, b: string, c: char)
    ensures LastIndex(a + b, c) == if c in b then |a| + LastIndex(b, c) else LastIndex(a, c)
  {
    var i := LastIndex(b, c);
    if c in b {
      assert i >= 0;
      assert (a + b)[|a| + i] == c;
      forall j | |a| + i < j < |a + b| ensures (a + b)[j] != c {
        assert (a + b)[j] == b[j - |a|];
      }
      LastIndexUnique(a + b, c, |a| + i);
    } else {
      LastIndexUnique(a + b, c, LastIndex(a, c));
    }
  }

  lemma LastLineOfOne(path: string)
    requires OneLine(path)
    ensures LastLine(path) == path
  {}

  lemma OnOneLine(path: string)
    requires OneLine(path)
    ensures MatchVersion(path) == VersionIn(path) && MatchGeneration(path) == GenerationIn(path)
  {
    LastLineOfOne(path);
  }

  lemma BucketIsPlain(b: string)
    requires ValidBucket(b) && OneLine(b)
    ensures '/' !in b && '#' !in b && b != ""
  {
    assert WithoutFinalNewline(b) == b;
  }

  // The path of an object URI, with what follows the object name.
  function Path(u: Uri, suffix: string): string {
    u.bucketName + "/" + (u.objectName + suffix)
  }

  // Scheme and path come back; the rest is up to the path.
  lemma ParsePath(scheme: string, path: string, defaultScheme: string, validate: bool)
    requires scheme == "s3" || scheme == "gs"
    requires BeforeSlash(path) == "" || ValidBucket(BeforeSlash(path))
    ensures ParseUri(scheme + "://" + path, defaultScheme, validate) == Ok(BucketUri(ParseBucketUri(scheme, path)))
  {
    ParseWithScheme(scheme, path, defaultScheme, validate);
    PartsParsed(scheme, path, validate);
  }

  lemma LowerScheme(scheme: string)
    requires scheme == "file" || scheme == "s3" || scheme == "gs"
    ensures Lower(scheme) == scheme && ':' !in scheme
  {}

  lemma ParseObject(u: Uri, suffix: string, defaultScheme: string, validate: bool)
    requires Printable(u) && u.bucketName != ""
    ensures ParseUri(u.scheme + "://" + Path(u, suffix), defaultScheme, validate)
      == Ok(BucketUri(ParseBucketUri(u.scheme, Path(u, suffix))))
    ensures BeforeSlash(Path(u, suffix)) == u.bucketName
  {
    BucketIsPlain(u.bucketName);
    SlashAt(u.bucketName, u.objectName + suffix);
    ParsePath(u.scheme, Path(u, suffix), defaultScheme, validate);
  }

  // ---- what the regular expressions find ----

  // A line that does not start with '#' has a version iff it has a '#' before
  // its last character.
  lemma VersionIff(line: string)
    requires line != "" && line[0] != '#'
    ensures VersionIn(line).Some? <==> '#' in line[..|line| - 1]
  {
    var init := line[..|line| - 1];
    if '#' in init {
      assert LastIndex(init, '#') >= 0;
    }
  }

  // The version starts after the last '#' that is not the last character.
  lemma VersionSplit(a: string, v: string)
    requires a != "" && v != ""
    ensures var m := VersionIn(a + "#" + v);
      m.Some? && if LooksVersioned(v) then |m.value.1| < |v| else m.value == (a, v)
  {
    var line := a + "#" + v;
    var w := v[..|v| - 1];
    assert line[..|line| - 1] == a + "#" + w;
    VersionAt(line, a + "#" + w);
    HashBefore(a, w);
    if '#' !in w {
      Halves(a, v);
    }
  }

  lemma VersionAt(line: string, init: string)
    requires |line| >= 3 && init == line[..|line| - 1]
    ensures var i := LastIndex(init, '#'); VersionIn(line) == if i >= 1 then Some((line[..i], line[i + 1..])) else None
  {}

  lemma Halves(a: string, v: string)
    ensures (a + "#" + v)[..|a|] == a && (a + "#" + v)[|a| + 1..] == v
  {}

  lemma HashBefore(a: string, w: string)
    ensures LastIndex(a + "#" + w, '#') == if '#' in w then |a| + 1 + LastIndex(w, '#') else |a|
  {
    LastIndexAppend(a + "#", w, '#');
    LastIndexUnique(a + "#", '#', |a|);
  }

  // A suffix without '#' is a generation iff it consists of digits.
  lemma GenerationSplit(a: string, v: string)
    requires a != "" && '#' !in v
    ensures GenerationIn(a + "#" + v) == if v != "" && AllDigits(v) then Some((a, v)) else None
  {
    HashBefore(a, v);
    Halves(a, v);
  }

  // After a prefix without '#', a line has a generation iff the rest looks so.
  lemma GenerationIff(a: string, name: string)
    requires a != "" && '#' !in a
    ensures var m := GenerationIn(a + name);
      && (m.Some? <==> LooksGenerated(name))
      && (m.Some? ==> m.value.0 == a + name[..LastIndex(name, '#')])
  {
    var i := LastIndex(name, '#');
    if i >= 0 {
      assert name == name[..i] + "#" + name[i + 1..];
      assert a + name == (a + name[..i]) + "#" + name[i + 1..];
      GenerationSplit(a + name[..i], name[i + 1..]);
    } else {
      NoGeneration(a + name);
    }
  }

  lemma NoGeneration(line: string)
    requires '#' !in line
    ensures GenerationIn(line).None?
  {
    assert LastIndex(line, '#') == -1;
  }

  // In a line, a and v are found iff the line is a#v and no later '#' has a
  // version after it, or v is all digits.
  lemma VersionInIff(line: string, a: string, v: string)
    ensures VersionIn(line) == Some((a, v)) <==>
      line == a + "#" + v && a != "" && v != "" && '#' !in v[..|v| - 1]
  {
    if line == a + "#" + v && a != "" && v != "" {
      VersionSplit(a, v);
    }
    if VersionIn(line) == Some((a, v)) {
      var i := LastIndex(line[..|line| - 1], '#');
      assert line == line[..i] + "#" + line[i + 1..];
      assert forall k :: 0 <= k < |v| - 1 ==> v[k] == line[..|line| - 1][i + 1 + k];
    }
  }

  lemma GenerationInIff(line: string, a: string, v: string)
    ensures GenerationIn(line) == Some((a, v)) <==>
      line == a + "#" + v && a != "" && v != "" && forall k :: 0 <= k < |v| ==> v[k] in "0123456789"
  {
    AllDigitsIff(v);
    if line == a + "#" + v && a != "" && '#' !in v {
      GenerationSplit(a, v);
    }
    if GenerationIn(line) == Some((a, v)) {
      var i := LastIndex(line, '#');
      assert line == line[..i] + "#" + line[i + 1..];
    }
  }

  // So they are in a path if its last line is that.
  lemma VersionFoundIff(path: string, a: string, v: string)
    ensures MatchVersion(path) == Some((a, v)) <==>
      LastLine(path) == a + "#" + v && a != "" && v != "" && '#' !in v[..|v| - 1]
  {
    VersionInIff(LastLine(path), a, v);
  }

  lemma GenerationFoundIff(path: string, a: string, v: string)
    ensures MatchGeneration(path) == Some((a, v)) <==>
      LastLine(path) == a + "#" + v && a != "" && v != "" && forall k :: 0 <= k < |v| ==> v[k] in "0123456789"
  {
    GenerationInIff(LastLine(path), a, v);
  }

  // A newline at the end of the path does not count.
  lemma LastLineIs(path: string, a: string, line: string)
    requires OneLine(line)
    ensures path == line || path == line + "\n" ==> LastLine(path) == line
    ensures path == a + "\n" + line + "\n" || (line != "" && path == a + "\n" + line) ==> LastLine(path) == line
  {
    FinalLineIs(a, line);
    LastLineOfOne(line);
    NewlineGone(line);
    NewlineGone(a + "\n" + line);
  }

  lemma {:induction false} FinalLineIs(a: string, line: string)
    requires OneLine(line)
    ensures FinalLine(a + "\n" + line) == line
  {
    var s := a + "\n" + line;
    assert s[|a|] == '\n';
    if a == [] {
      assert s[1..] == line;
    } else {
      assert s[1..] == a[1..] + "\n" + line;
      FinalLineIs(a[1..], line);
    }
  }

  // The three fields that are read from the path.
  lemma PathFields(path: string)
    ensures var u := ParseBucketUri("s3", path); var m := MatchVersion(path);
      && u.scheme == "s3" && u.generation == None && Heads(u.bucketName, path)
      && u.versionId == (if m.Some? then Some(m.value.1) else None)
      && ObjectOf(if m.Some? then m.value.0 else path, u.objectName)
    ensures var u := ParseBucketUri("gs", path); var m := MatchGeneration(path);
      && u.scheme == "gs" && u.versionId == None && Heads(u.bucketName, path)
      && u.generation == (if m.Some? then Some(Value(m.value.1) as int) else None)
      && ObjectOf(if m.Some? then m.value.0 else path, u.objectName)
  {
    ParseS3(path);
    ParseGs(path);
    HeadsIff(BeforeSlash(path), path);
    var v, g := MatchVersion(path), MatchGeneration(path);
    ObjectAfterSlash(if v.Some? then v.value.0 else path);
    ObjectAfterSlash(if g.Some? then g.value.0 else path);
    if g.Some? {
      ParseDigits(g.value.1);
    }
  }

  // name is what follows the first slash of the path, and empty without one.
  ghost predicate ObjectOf(path: string, name: string) {
    if '/' in path then exists b :: '/' !in b && path == b + "/" + name else name == ""
  }

  lemma ObjectAfterSlash(path: string)
    ensures ObjectOf(path, AfterSlash(path))
  {
    BeforeSlashSplits(path);
    var b := BeforeSlash(path);
    if '/' in path {
      var rest := path[|b| + 1..];
      assert path == b + "/" + rest;
      SlashAt(b, rest);
    } else {
      NoSlash(path);
    }
  }

  function Base(u: Uri): string {
    u.bucketName + "/" + u.objectName
  }

  lemma PathParts(u: Uri, v: string)
    ensures Path(u, "#" + v) == Base(u) + "#" + v && Path(u, "") == Base(u)
  {
    assert u.bucketName + "/" + (u.objectName + ("#" + v)) == u.bucketName + "/" + u.objectName + "#" + v;
    assert u.objectName + "" == u.objectName;
  }

  lemma S3Unversioned(u: Uri)
    requires Printable(u) && u.bucketName != ""
    ensures MatchVersion(Base(u)).Some? <==> LooksVersioned(u.objectName)
  {
    BucketIsPlain(u.bucketName);
    assert OneLine(Base(u)) && Base(u)[0] == u.bucketName[0];
    VersionIff(Base(u));
    HashInName(u.bucketName, u.objectName);
  }

  lemma HashInName(bucket: string, name: string)
    requires '#' !in bucket
    ensures var path := bucket + "/" + name; '#' in path[..|path| - 1] <==> LooksVersioned(name)
  {
    var path := bucket + "/" + name;
    if name == [] {
      assert path[..|path| - 1] == bucket;
    } else {
      assert path[..|path| - 1] == bucket + "/" + name[..|name| - 1];
    }
  }

  // ---- the round trip, scheme by scheme ----

  function Suffix(u: Uri): string {
    if VersionText(u).Some? then "#" + VersionText(u).value else ""
  }

  lemma S3Iff(u: Uri)
    requires Printable(u) && u.bucketName != "" && u.objectName != "" && u.scheme == "s3"
    requires BeforeSlash(Path(u, Suffix(u))) == u.bucketName
    ensures ParseBucketUri("s3", Path(u, Suffix(u))) == u <==> Recoverable(u)
  {
    ParseS3(Path(u, Suffix(u)));
    if u.generation.None? {
      if VersionText(u).None? {
        S3NoVersionIff(u);
      } else {
        S3VersionIff(u);
      }
    }
  }

  lemma S3NoVersionIff(u: Uri)
    requires Printable(u) && u.bucketName != "" && u.objectName != "" && u.scheme == "s3"
    requires BeforeSlash(Path(u, "")) == u.bucketName && u.generation.None? && VersionText(u).None?
    ensures ParseBucketUri("s3", Path(u, "")) == u <==> Recoverable(u)
  {
    ParseS3(Path(u, ""));
    PathParts(u, "");
    S3Unversioned(u);
    BucketIsPlain(u.bucketName);
    SlashAt(u.bucketName, u.objectName);
  }

  lemma S3VersionIff(u: Uri)
    requires Printable(u) && u.bucketName != "" && u.objectName != "" && u.scheme == "s3"
    requires u.generation.None? && u.versionId.Some? && u.versionId.value != ""
    requires BeforeSlash(Path(u, "#" + u.versionId.value)) == u.bucketName
    ensures ParseBucketUri("s3", Path(u, "#" + u.versionId.value)) == u <==> Recoverable(u)
  {
    var v := u.versionId.value;
    ParseS3(Path(u, "#" + v));
    PathParts(u, v);
    S3Versioned(u);
    BucketIsPlain(u.bucketName);
    SlashAt(u.bucketName, u.objectName);
  }

  lemma S3Versioned(u: Uri)
    requires Printable(u) && u.bucketName != "" && u.versionId.Some? && u.versionId.value != ""
    ensures var v := u.versionId.value; var m := MatchVersion(Base(u) + "#" + v);
      m.Some? && if LooksVersioned(v) then |m.value.1| < |v| else m.value == (Base(u), v)
  {
    BucketIsPlain(u.bucketName);
    VersionSplit(Base(u), u.versionId.value);
  }

  lemma GsIff(u: Uri)
    requires Printable(u) && u.bucketName != "" && u.objectName != "" && u.scheme == "gs"
    requires BeforeSlash(Path(u, Suffix(u))) == u.bucketName
    ensures ParseBucketUri("gs", Path(u, Suffix(u))) == u <==> Recoverable(u)
  {
    if VersionText(u).None? {
      GsNoVersionIff(u);
    } else {
      GsVersionIff(u);
    }
  }

  lemma GsNoVersionIff(u: Uri)
    requires Printable(u) && u.bucketName != "" && u.objectName != "" && u.scheme == "gs"
    requires BeforeSlash(Path(u, "")) == u.bucketName && VersionText(u).None?
    ensures ParseBucketUri("gs", Path(u, "")) == u <==> Recoverable(u)
  {
    ParseGs(Path(u, ""));
    PathParts(u, "");
    GsUnversioned(u);
    BucketIsPlain(u.bucketName);
    SlashAt(u.bucketName, u.objectName);
    if LooksGenerated(u.objectName) {
      SlashAt(u.bucketName, u.objectName[..LastIndex(u.objectName, '#')]);
    }
  }

  lemma GsUnversioned(u: Uri)
    requires Printable(u) && u.bucketName != ""
    ensures var m := MatchGeneration(Base(u));
      && (m.Some? <==> LooksGenerated(u.objectName))
      && (m.Some? ==> m.value.0 == u.bucketName + "/" + u.objectName[..LastIndex(u.objectName, '#')])
  {
    BucketIsPlain(u.bucketName);
    OnOneLine(Base(u));
    GenerationIff(u.bucketName + "/", u.objectName);
  }

  lemma GsVersionIff(u: Uri)
    requires Printable(u) && u.bucketName != "" && u.objectName != "" && u.scheme == "gs"
    requires VersionText(u).Some? && BeforeSlash(Path(u, "#" + VersionText(u).value)) == u.bucketName
    ensures ParseBucketUri("gs", Path(u, "#" + VersionText(u).value)) == u <==> Recoverable(u)
  {
    var v := VersionText(u).value;
    ParseGs(Path(u, "#" + v));
    PathParts(u, v);
    BucketIsPlain(u.bucketName);
    SlashAt(u.bucketName, u.objectName);
    if u.versionId.None? {
      GsVersioned(u, u.generation.value);
    }
  }

  lemma RoundTripObject(u: Uri, defaultScheme: string, validate: bool)
    requires Printable(u) && u.bucketName != "" && u.objectName != ""
    ensures ParseUri(Print(u), defaultScheme, validate) == Ok(BucketUri(u)) <==> Recoverable(u)
  {
    PrintedPath(u, Suffix(u));
    ParseObject(u, Suffix(u), defaultScheme, validate);
    if u.scheme == "s3" {
      S3Iff(u);
    } else {
      GsIff(u);
    }
  }

  lemma PrintedPath(u: Uri, suffix: string)
    requires u.bucketName != "" && u.objectName != ""
    requires suffix == if VersionText(u).Some? then "#" + VersionText(u).value else ""
    ensures Print(u) == u.scheme + "://" + Path(u, suffix)
  {
    assert u.scheme + "://" + u.bucketName + "/" + u.objectName + suffix
        == u.scheme + "://" + (u.bucketName + "/" + (u.objectName + suffix));
  }

  lemma GsVersioned(u: Uri, g: int)
    requires Printable(u) && u.bucketName != ""
    ensures MatchGeneration(Base(u) + "#" + Decimal(g)) == if g < 0 then None else Some((Base(u), Decimal(g)))
    ensures ParseInt(Decimal(g)) == Some(g)
  {
    var v := Decimal(g);
    BucketIsPlain(u.bucketName);
    assert '#' !in v && OneLine(v);
    assert OneLine(Base(u) + "#" + v);
    GenerationSplit(Base(u), v);
    ParseDecimal(g);
    assert g < 0 ==> v[0] == '-';
  }

  lemma NoBucketIff(u: Uri, defaultScheme: string, validate: bool)
    requires Printable(u) && u.bucketName == ""
    ensures ParseUri(Print(u), defaultScheme, validate) == Ok(BucketUri(u)) <==> Recoverable(u)
  {
    assert Print(u) == u.scheme + "://" + u.bucketName;
    ParseShort(u.scheme, u.bucketName, defaultScheme, validate);
  }

  lemma ParseShort(scheme: string, path: string, defaultScheme: string, validate: bool)
    requires scheme == "s3" || scheme == "gs"
    requires '/' !in path && '#' !in path && OneLine(path) && path == ""
    ensures ParseUri(scheme + "://" + path, defaultScheme, validate) == Ok(BucketUri(Uri(scheme, path, [], None, None)))
  {
    ParsePath(scheme, path, defaultScheme, validate);
    ShortPath(scheme, path);
  }

  lemma ShortPath(scheme: string, path: string)
    requires scheme == "s3" || scheme == "gs"
    requires '/' !in path && '#' !in path && OneLine(path) && |path| < 3
    ensures ParseBucketUri(scheme, path) == Uri(scheme, path, [], None, None)
  {
    NoSlash(path);
    NoVersion(path);
    NoGeneration(path);
    ParseS3(path);
    ParseGs(path);
  }

  lemma ParseS3(path: string)
    ensures ParseBucketUri("s3", path) == match MatchVersion(path)
      case Some(m) => Uri("s3", BeforeSlash(path), AfterSlash(m.0), Some(m.1), None)
      case None => Uri("s3", BeforeSlash(path), AfterSlash(path), None, None)
  {}

  lemma ParseGs(path: string)
    ensures ParseBucketUri("gs", path) == match MatchGeneration(path)
      case Some(m) => Uri("gs", BeforeSlash(path), AfterSlash(m.0), None, Some(IntOf(m.1)))
      case None => Uri("gs", BeforeSlash(path), AfterSlash(path), None, None)
  {}

  lemma NoVersion(path: string)
    requires OneLine(path) && |path| < 3
    ensures MatchVersion(path).None?
  {
    OnOneLine(path);
  }

  lemma NoObjectIff(u: Uri, defaultScheme: string, validate: bool)
    requires Printable(u) && u.bucketName != "" && u.objectName == ""
    ensures ParseUri(Print(u), defaultScheme, validate) == Ok(BucketUri(u)) <==> Recoverable(u)
  {
    var bare := u.(versionId := None, generation := None);
    assert Print(u) == bare.scheme + "://" + Path(bare, "");
    ParseObject(bare, "", defaultScheme, validate);
    BareParse(bare);
  }

  lemma BareParse(u: Uri)
    requires Printable(u) && u.bucketName != "" && u.objectName == "" && BeforeSlash(Path(u, "")) == u.bucketName
    ensures ParseBucketUri(u.scheme, Path(u, "")) == u.(versionId := None, generation := None)
  {
    PathParts(u, "");
    BucketIsPlain(u.bucketName);
    SlashAt(u.bucketName, "");
    if u.scheme == "s3" {
      S3Unversioned(u);
      ParseS3(Path(u, ""));
    } else {
      GsUnversioned(u);
      ParseGs(Path(u, ""));
    }
  }

  // Parsing the printed URI gives back every component exactly when the URI is
  // Recoverable, whatever the default scheme and whether or not it validates.
  lemma RoundTripIff(u: Uri, defaultScheme: string, validate: bool)
    requires Printable(u)
    ensures ParseUri(Print(u), defaultScheme, validate) == Ok(BucketUri(u)) <==> Recoverable(u)
  {
    if u.bucketName == "" {
      NoBucketIff(u, defaultScheme, validate);
    } else if u.objectName == "" {
      NoObjectIff(u, defaultScheme, validate);
    } else {
      RoundTripObject(u, defaultScheme, validate);
    }
  }

  // It does fail: generation 0 is not printed, and so comes back as none.
  lemma GenerationZeroIsLost(defaultScheme: string, validate: bool)
    ensures var u := Uri("gs", "abc", "x", None, Some(0));
      Printable(u) && ParseUri(Print(u), defaultScheme, validate) == Ok(BucketUri(u.(generation := None)))
  {
    var u := Uri("gs", "abc", "x", None, Some(0));
    var plain := u.(generation := None);
    assert ValidBucket("abc") && OneLine("abc") && OneLine("x");
    assert Print(u) == Print(plain);
    assert Recoverable(plain);
    RoundTripIff(plain, defaultScheme, validate);
  }
}
