/** AWSAuthConnection.get_path: joining a request path to the connection's own. */
module RequestPath {
  import opened Wrappers
  import opened Text

  datatype Error = IndexError

  // s.find(c)
  function Find(s: string, c: char): (pos: int)
    ensures -1 <= pos < |s|
    ensures pos >= 0 ==> s[pos] == c && c !in s[..pos]
    ensures pos < 0 ==> c !in s
  {
    if s == [] then -1
    else if s[0] == c then 0
    else
      assert s == [s[0]] + s[1..];
      var pos := Find(s[1..], c);
      assert pos >= 0 ==> s[..pos + 1] == [s[0]] + s[1..][..pos];
      if pos < 0 then -1 else pos + 1
  }

  // The part of a path before its query, and the query with its '?'.
  function Head(path: string): string {
    if Find(path, '?') < 0 then path else path[..Find(path, '?')]
  }

  function Tail(path: string): string {
    if Find(path, '?') < 0 then [] else path[Find(path, '?')..]
  }

  // [p for p in parts if p]
  function NonEmpty(parts: seq<string>): seq<string> {
    if parts == [] then []
    else if parts[0] == [] then NonEmpty(parts[1..])
    else [parts[0]] + NonEmpty(parts[1..])
  }

  function Segments(path: string): seq<string> {
    NonEmpty(Split(path, '/'))
  }

  predicate IsSegment(p: string) {
    p != [] && '/' !in p
  }

  predicate EndsInSlash(s: string) {
    s != [] && s[|s| - 1] == '/'
  }

  // A path with the given segments and, if it has any, a slash after the last
  // one or not.
  ghost function Render(segments: seq<string>, trailing: bool): string {
    if segments == [] then "/" else Rooted(segments) + if trailing then "/" else []
  }

  ghost function Rooted(segments: seq<string>): string {
    if segments == [] then [] else "/" + segments[0] + Rooted(segments[1..])
  }

  ghost predicate Normal(path: string) {
    && path != [] && path[0] == '/'
    && forall i :: 0 < i < |path| && path[i] == '/' ==> path[i - 1] != '/'
  }

  method GetPath(base: string, suppressConsecSlashes: bool, path: string) returns (r: Result<string, Error>)
    ensures !suppressConsecSlashes ==> r == Ok(base + if path != [] && path[0] == '/' then path[1..] else path)
    ensures suppressConsecSlashes && Head(path) == [] ==> r == Err(IndexError)
    ensures suppressConsecSlashes && Head(path) != [] ==>
      r == Ok(Joined(base, path) + Tail(path))
  {
    if !suppressConsecSlashes {
      return Ok(base + DropSlash(path));
    }
    var pos := Find(path, '?');
    var params, p := [], path;
    if pos >= 0 {
      params := path[pos..];
      p := path[..pos];
    }
    assert p == Head(path) && params == Tail(path);
    if p == [] {
      return Err(IndexError);
    }
    var needTrailing := p[|p| - 1] == '/';
    var elements := Split(base, '/');
    elements := elements + Split(p, '/');
    NonEmptyAppend(Split(base, '/'), Split(p, '/'));
    elements := NonEmpty(elements);
    assert elements == Segments(base) + Segments(Head(path));
    p := "/" + Join(elements, '/');
    SegmentsAreSegments(base);
    SegmentsAreSegments(Head(path));
    JoinedWithSlash(elements, needTrailing);
    if p[|p| - 1] != '/' && needTrailing {
      p := p + "/";
    }
    assert p == Render(elements, needTrailing);
    p := p + params;
    r := Ok(p);
  }

  function LeadingSlashes(s: string): (n: nat)
    ensures n <= |s| && (n > 0 <==> s != [] && s[0] == '/')
    ensures forall i :: 0 <= i < n ==> s[i] == '/'
  {
    if s == [] || s[0] != '/' then 0 else 1 + LeadingSlashes(s[1..])
  }

  lemma NonEmptyStep(x: string, parts: seq<string>)
    ensures NonEmpty([x] + parts) == (if x == [] then [] else [x]) + NonEmpty(parts)
  {
    assert ([x] + parts)[1..] == parts;
  }

  lemma {:induction false} NonEmptyAppend(s: seq<string>, t: seq<string>)
    ensures NonEmpty(s + t) == NonEmpty(s) + NonEmpty(t)
  {
    if s == [] {
      assert s + t == t;
    } else {
      NonEmptyAppend(s[1..], t);
      NonEmptyStep(s[0], s[1..]);
      NonEmptyStep(s[0], s[1..] + t);
      assert s == [s[0]] + s[1..];
      assert s + t == [s[0]] + (s[1..] + t);
    }
  }

  // re.sub('^(/*)/', '\\1', path)
  function DropSlash(path: string): (s: string)
    ensures s == if path != [] && path[0] == '/' then path[1..] else path
  {
    var n := LeadingSlashes(path);
    if n > 0 then path[..n - 1] + path[n..] else path
  }

  lemma {:induction false} NonEmptyParts(parts: seq<string>)
    requires forall i :: 0 <= i < |parts| ==> '/' !in parts[i]
    ensures forall p :: p in NonEmpty(parts) ==> IsSegment(p)
  {
    if parts == [] {
    } else {
      NonEmptyParts(parts[1..]);
    }
  }

  lemma SegmentsAreSegments(path: string)
    ensures forall p :: p in Segments(path) ==> IsSegment(p)
  {
    SplitParts(path, '/');
    NonEmptyParts(Split(path, '/'));
  }

  lemma {:induction false} RootedIsJoin(segments: seq<string>)
    ensures segments != [] ==> "/" + Join(segments, '/') == Rooted(segments)
  {
    if |segments| > 1 {
      RootedIsJoin(segments[1..]);
    }
  }

  lemma {:induction false} RootedEnd(segments: seq<string>)
    requires forall p :: p in segments ==> IsSegment(p)
    ensures segments != [] ==> Rooted(segments) != [] && !EndsInSlash(Rooted(segments))
  {
    if |segments| == 1 {
      var p := segments[0];
      assert p in segments && p[|p| - 1] in p;
    } else if segments != [] {
      RootedEnd(segments[1..]);
    }
  }

  lemma JoinedWithSlash(segments: seq<string>, trailing: bool)
    requires forall p :: p in segments ==> IsSegment(p)
    ensures var s := "/" + Join(segments, '/');
      Render(segments, trailing) == if s[|s| - 1] != '/' && trailing then s + "/" else s
  {
    RootedIsJoin(segments);
    RootedEnd(segments);
  }

  // ---- what the normal form is ----

  lemma SegmentsOfSlash(b: string)
    ensures Segments("/" + b) == Segments(b)
  {
    SplitFirst([], '/', b);
    assert [] + ['/'] + b == "/" + b;
  }

  lemma SegmentsOfNothing()
    ensures Segments([]) == [] && Segments("/") == []
  {
    assert Split([], '/') == [[]];
    SegmentsOfSlash([]);
    assert "/" + [] == "/";
  }

  lemma OneSegment(p: string)
    requires IsSegment(p)
    ensures Segments(p) == [p]
  {
    SplitWhole(p, '/');
    assert NonEmpty([p]) == [p] + NonEmpty([p][1..]);
  }

  lemma SegmentThenSlash(p: string, b: string)
    requires IsSegment(p)
    ensures Segments(p + ['/'] + b) == [p] + Segments(b)
  {
    SplitFirst(p, '/', b);
    assert ([p] + Split(b, '/'))[1..] == Split(b, '/');
  }

  // The first segment of a rooted path, and the rest.
  lemma SegmentsStep(p: string, rest: string)
    requires IsSegment(p) && (rest != [] ==> rest[0] == '/')
    ensures Segments("/" + (p + rest)) == [p] + Segments(rest)
  {
    SegmentsOfSlash(p + rest);
    if rest == [] {
      OneSegment(p);
      SegmentsOfNothing();
      assert p + rest == p;
    } else {
      assert rest == "/" + rest[1..];
      SegmentThenSlash(p, rest[1..]);
      SegmentsOfSlash(rest[1..]);
      assert p + rest == p + ['/'] + rest[1..];
    }
  }

  lemma {:induction false} SegmentsOfRooted(segments: seq<string>, end: string)
    requires (forall p :: p in segments ==> IsSegment(p)) && (end == [] || end == "/")
    ensures Segments(Rooted(segments) + end) == segments
  {
    if segments == [] {
      SegmentsOfNothing();
      assert Rooted(segments) + end == end;
    } else {
      var rest := Rooted(segments[1..]) + end;
      SegmentsOfRooted(segments[1..], end);
      SegmentsStep(segments[0], rest);
      RootedStep(segments, end);
    }
  }

  lemma RootedStep(segments: seq<string>, end: string)
    requires segments != []
    ensures Rooted(segments) + end == "/" + (segments[0] + (Rooted(segments[1..]) + end))
  {
    var p, rest := segments[0], Rooted(segments[1..]);
    assert "/" + p + rest + end == "/" + (p + (rest + end));
  }

  // Rendering keeps the segments, and a slash at the end.
  lemma SegmentsOfRender(segments: seq<string>, trailing: bool)
    requires forall p :: p in segments ==> IsSegment(p)
    ensures Segments(Render(segments, trailing)) == segments
    ensures EndsInSlash(Render(segments, trailing)) <==> trailing || segments == []
  {
    SegmentsOfNothing();
    SegmentsOfRooted(segments, if trailing then "/" else []);
    RootedEnd(segments);
  }

  // A rendered path starts with a slash and has no two slashes in a row.
  lemma {:induction false} RenderIsNormal(segments: seq<string>, trailing: bool)
    requires forall p :: p in segments ==> IsSegment(p)
    ensures Normal(Render(segments, trailing))
  {
    if segments == [] {
    } else {
      var end := if trailing then "/" else [];
      var p, rest := segments[0], Rooted(segments[1..]) + end;
      assert Render(segments, trailing) == "/" + p + rest;
      RenderIsNormal(segments[1..], trailing);
      NormalStep(p, rest);
    }
  }

  lemma NormalStep(p: string, rest: string)
    requires IsSegment(p) && (rest == [] || Normal(rest))
    ensures Normal("/" + p + rest)
  {
    var s := "/" + p + rest;
    forall i | 0 < i < |s| ensures s[i] == '/' ==> s[i - 1] != '/' {
      if i <= |p| {
        assert s[i] == p[i - 1] && p[i - 1] in p;
      } else if i == |p| + 1 {
        assert s[i - 1] == p[i - 2] && p[i - 2] in p;
      } else {
        assert s[i] == rest[i - 1 - |p|] && s[i - 1] == rest[i - 2 - |p|];
      }
    }
  }

  // A path in normal form is the rendering of its own segments.
  lemma {:induction false} NormalIsRendered(path: string)
    requires Normal(path)
    ensures path == Render(Segments(path), EndsInSlash(path))
    decreases |path|
  {
    if |path| == 1 {
      SegmentsOfNothing();
      assert path == "/";
    } else {
      var n := Find(path[1..], '/');
      var p, rest := FirstSegment(path, if n < 0 then |path| else n + 1);
      if rest == [] {
        SegmentsOfNothing();
        assert Rooted([p]) == "/" + p + Rooted([p][1..]);
      } else {
        NormalIsRendered(rest);
        RenderStep(p, Segments(rest), EndsInSlash(path), rest);
      }
    }
  }

  lemma FirstSegment(path: string, n: nat) returns (p: string, rest: string)
    requires Normal(path) && 1 < |path| && n <= |path|
    requires n >= 1 && '/' !in path[1..][..n - 1] && (n < |path| ==> path[n] == '/')
    ensures path == "/" + (p + rest) && Segments(path) == [p] + Segments(rest)
    ensures rest == [] ==> !EndsInSlash(path)
    ensures rest != [] ==> Normal(rest) && EndsInSlash(rest) == EndsInSlash(path)
  {
    p, rest := path[1..][..n - 1], path[n..];
    assert path[1] != '/';
    assert path[1] in p;
    assert path == "/" + (p + rest);
    SegmentsStep(p, rest);
    if n < |path| {
      NormalSuffix(path, n);
    } else {
      assert path[|path| - 1] in p;
    }
  }

  lemma NormalSuffix(path: string, n: nat)
    requires Normal(path) && n < |path| && path[n] == '/'
    ensures Normal(path[n..])
  {
    var s := path[n..];
    forall i | 0 < i < |s| && s[i] == '/' ensures s[i - 1] != '/' {
      assert path[n + i] == '/';
    }
  }

  lemma RenderStep(p: string, segments: seq<string>, trailing: bool, rest: string)
    requires rest == Render(segments, trailing) && EndsInSlash(rest) == trailing
    ensures Render([p] + segments, trailing) == "/" + (p + rest)
  {
    assert ([p] + segments)[1..] == segments;
  }

  // So only one path in normal form has given segments and a given end.
  lemma NormalFormUnique(s: string, t: string)
    requires Normal(s) && Normal(t)
    ensures s == t <==> Segments(s) == Segments(t) && EndsInSlash(s) == EndsInSlash(t)
  {
    NormalIsRendered(s);
    NormalIsRendered(t);
  }

  // ---- what get_path returns ----

  // The path get_path returns before it puts the query back.
  ghost function Joined(base: string, path: string): string {
    Render(Segments(base) + Segments(Head(path)), EndsInSlash(Head(path)))
  }

  lemma HeadAndTail(path: string)
    ensures path == Head(path) + Tail(path) && '?' !in Head(path)
    ensures Tail(path) != [] ==> Tail(path)[0] == '?'
  {}

  // The segments of the base, then those of the path; a slash at the end iff
  // the path had one or there are no segments; and no path but this one.
  lemma JoinedPath(base: string, path: string, s: string)
    ensures s == Joined(base, path) <==>
      && Normal(s)
      && Segments(s) == Segments(base) + Segments(Head(path))
      && (EndsInSlash(s) <==> EndsInSlash(Head(path)) || Segments(base) + Segments(Head(path)) == [])
  {
    SegmentsAreSegments(base);
    SegmentsAreSegments(Head(path));
    var segments := Segments(base) + Segments(Head(path));
    SegmentsOfRender(segments, EndsInSlash(Head(path)));
    RenderIsNormal(segments, EndsInSlash(Head(path)));
    if Normal(s) {
      NormalFormUnique(s, Joined(base, path));
    }
  }

  lemma {:induction false} NoNewChars(parts: seq<string>, c: char)
    requires c != '/' && forall i :: 0 <= i < |parts| ==> c !in parts[i]
    ensures c !in Rooted(NonEmpty(parts))
  {
    if parts == [] {
    } else {
      NoNewChars(parts[1..], c);
    }
  }

  lemma {:induction false} SplitAdds(s: string, sep: char, c: char)
    requires c !in s
    ensures forall i :: 0 <= i < |Split(s, sep)| ==> c !in Split(s, sep)[i]
  {
    if s == [] {
    } else {
      SplitAdds(s[1..], sep, c);
    }
  }

  lemma FindAfter(a: string, b: string, c: char)
    requires c !in a && b != [] && b[0] == c
    ensures Find(a + b, c) == |a|
  {
    assert (a + b)[|a|] == c;
  }

  lemma JoinedAgain(base: string, path: string)
    requires Segments(base) == []
    ensures var r := Joined(base, path) + Tail(path);
      Joined(base, r) + Tail(r) == r
  {
    var body := Joined(base, path);
    JoinedPath(base, path, body);
    assert Segments(base) + Segments(Head(path)) == Segments(Head(path));
    SplitAdds(Head(path), '/', '?');
    NoNewChars(Split(Head(path), '/'), '?');
    assert '?' !in body;
    var r := body + Tail(path);
    if Tail(path) != [] {
      FindAfter(body, Tail(path), '?');
    } else {
      assert r == body;
    }
    assert Head(r) == body && Tail(r) == Tail(path);
    assert Segments(base) + Segments(body) == Segments(body);
    NormalIsRendered(body);
  }

  // Joining again changes nothing exactly when the base has no segments, such
  // as '/': then GetPath maps its own result to itself.
  lemma JoinedTwice(base: string, path: string)
    ensures var r := Joined(base, path) + Tail(path);
      Head(r) != [] && (Joined(base, r) + Tail(r) == r <==> Segments(base) == [])
  {
    var r := Joined(base, path) + Tail(path);
    JoinedPath(base, path, Joined(base, path));
    assert r[0] == '/';
    if Segments(base) == [] {
      JoinedAgain(base, path);
    }
    if Joined(base, r) + Tail(r) == r {
      HeadAndTail(r);
      assert Joined(base, r) == r[..|r| - |Tail(r)|] == Head(r);
      JoinedPath(base, r, Head(r));
    }
  }
}
