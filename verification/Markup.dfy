/**
  XML text for element trees: how a tree is written, and the part of an XML
  parser needed to read it back (tags with or without attributes, processing
  instructions, character data that needs no escaping). Character data is
  delivered one character at a time; how a parser cuts it up does not matter.
*/
module Markup {
  import opened Wrappers
  import opened SaxHandler

  // Characters that stand for themselves, '>' included.
  predicate PlainChar(c: char) {
    c != '<' && c != '&' && (c == '\t' || c == '\n' || ' ' <= c)
  }

  // The one run of such characters that XML does not allow in character data.
  predicate CDataEnd(s: string) {
    |s| >= 3 && s[0] == ']' && s[1] == ']' && s[2] == '>'
  }

  // Character data that needs no escaping.
  predicate Plain(s: string) {
    s == [] || (PlainChar(s[0]) && !CDataEnd(s) && Plain(s[1..]))
  }

  lemma {:induction false} WordIsPlain(s: string)
    requires forall i :: 0 <= i < |s| ==> NameChar(s[i]) || s[i] in ['-', '/']
    ensures Plain(s)
  {
    if s == [] {
    } else {
      WordIsPlain(s[1..]);
    }
  }

  predicate EndsInBracket(s: string) {
    s != [] && s[|s| - 1] == ']'
  }

  predicate Blank(s: string) {
    s == [] || ((s[0] == ' ' || s[0] == '\n') && Blank(s[1..]))
  }

  lemma {:induction false} BlankIsPlain(s: string)
    requires Blank(s)
    ensures Plain(s) && !EndsInBracket(s)
  {
    if s == [] {
    } else {
      BlankIsPlain(s[1..]);
    }
  }

  predicate NameChar(c: char) {
    'a' <= c <= 'z' || 'A' <= c <= 'Z' || '0' <= c <= '9'
  }

  predicate TagName(s: string) {
    s != [] && forall i :: 0 <= i < |s| ==> NameChar(s[i])
  }

  function Render(kids: seq<Xml>): string
    decreases kids
  {
    if kids == [] then "" else RenderOne(kids[0]) + Render(kids[1..])
  }

  function RenderOne(x: Xml): string
    decreases x
  {
    match x
    case Text(t) => t
    case Elem(name, inner) => "<" + name + ">" + Render(inner) + "</" + name + ">"
  }

  // Everything before the first c.
  function UpTo(s: string, c: char): string {
    if s == [] || s[0] == c then [] else [s[0]] + UpTo(s[1..], c)
  }

  lemma {:induction false} UpToSplit(a: string, c: char, b: string)
    requires c !in a
    ensures UpTo(a + [c] + b, c) == a
  {
    if a == [] {
      assert (a + [c] + b)[0] == c;
    } else {
      assert (a + [c] + b)[1..] == a[1..] + [c] + b;
      UpToSplit(a[1..], c, b);
    }
  }

  lemma {:induction false} UpToSize(s: string, c: char)
    ensures |UpTo(s, c)| <= |s|
  {
    if s != [] && s[0] != c {
      UpToSize(s[1..], c);
    }
  }

  function Prepend(es: seq<Event>, rest: Option<seq<Event>>): Option<seq<Event>> {
    if rest.Some? then Some(es + rest.value) else None
  }

  // The events for a piece of text at nesting depth `depth`; None if it is not
  // of the supported form. Outside the root element only white space may stand,
  // and it is not reported.
  function Lex(s: string, depth: nat): Option<seq<Event>>
    decreases |s|
  {
    if s == [] then (if depth == 0 then Some([]) else None)
    else if s[0] == '<' then
      UpToSize(s[1..], '>');
      var tag := UpTo(s[1..], '>');
      if |tag| + 2 > |s| || tag == [] then None
      else
        var rest := s[|tag| + 2..];
        if tag[0] == '?' then Lex(rest, depth)
        else if tag[0] == '/' then
          (if depth == 0 then None else Prepend([End(tag[1..])], Lex(rest, depth - 1)))
        else Prepend([Start(UpTo(tag, ' '))], Lex(rest, depth + 1))
    else if depth == 0 then
      (if s[0] == ' ' || s[0] == '\t' || s[0] == '\n' then Lex(s[1..], depth) else None)
    else if !PlainChar(s[0]) || CDataEnd(s) then None
    else Prepend([Chars([s[0]])], Lex(s[1..], depth))
  }

  function Letters(t: string): seq<Event> {
    if t == [] then [] else [Chars([t[0]])] + Letters(t[1..])
  }

  // The events of a tree with its text cut into single characters.
  function Pieces(kids: seq<Xml>): seq<Event>
    decreases kids
  {
    if kids == [] then [] else PiecesOne(kids[0]) + Pieces(kids[1..])
  }

  function PiecesOne(x: Xml): seq<Event>
    decreases x
  {
    match x
    case Text(t) => Letters(t)
    case Elem(name, inner) => [Start(name)] + (Pieces(inner) + [End(name)])
  }

  // Trees whose text and names can be written as they are. Text that has
  // siblings must not run into them.
  predicate Writable(kids: seq<Xml>)
    decreases kids
  {
    forall i :: 0 <= i < |kids| ==>
      if kids[i].Text? then Plain(kids[i].text) && (|kids| > 1 ==> !EndsInBracket(kids[i].text))
      else TagName(kids[i].name) && Writable(kids[i].kids)
  }

  lemma LexOpen(name: string, attributes: string, rest: string, depth: nat)
    requires TagName(name) && '>' !in attributes && (attributes == "" || attributes[0] == ' ')
    ensures Lex("<" + name + attributes + ">" + rest, depth) == Prepend([Start(name)], Lex(rest, depth + 1))
  {
    var tag := name + attributes;
    var s := "<" + name + attributes + ">" + rest;
    assert s[1..] == tag + ['>'] + rest;
    UpToSplit(tag, '>', rest);
    assert s[|tag| + 2..] == rest;
    assert tag[0] == name[0];
    if attributes != "" {
      assert tag == name + [' '] + attributes[1..];
      UpToSplit(name, ' ', attributes[1..]);
    } else {
      assert tag == name;
      UpToAll(name, ' ');
    }
  }

  lemma {:induction false} UpToAll(s: string, c: char)
    requires c !in s
    ensures UpTo(s, c) == s
  {
    if s == [] {
    } else {
      UpToAll(s[1..], c);
    }
  }

  lemma LexClose(name: string, rest: string, depth: nat)
    requires TagName(name) && depth > 0
    ensures Lex("</" + name + ">" + rest, depth) == Prepend([End(name)], Lex(rest, depth - 1))
  {
    var tag := "/" + name;
    var s := "</" + name + ">" + rest;
    assert s[1..] == tag + ['>'] + rest;
    UpToSplit(tag, '>', rest);
    assert s[|tag| + 2..] == rest;
    assert tag[1..] == name;
  }

  lemma PrependTwice(es: seq<Event>, fs: seq<Event>, rest: Option<seq<Event>>)
    ensures Prepend(es, Prepend(fs, rest)) == Prepend(es + fs, rest)
  {
    if rest.Some? {
      assert es + (fs + rest.value) == es + fs + rest.value;
    }
  }

  lemma PrependNothing(rest: Option<seq<Event>>)
    ensures Prepend([], rest) == rest
  {
    if rest.Some? {
      assert [] + rest.value == rest.value;
    }
  }

  predicate StartsTag(s: string) {
    s != [] && s[0] == '<'
  }

  lemma {:induction false} LexLetters(t: string, rest: string, depth: nat)
    requires Plain(t) && depth > 0 && (StartsTag(rest) || !EndsInBracket(t))
    ensures Lex(t + rest, depth) == Prepend(Letters(t), Lex(rest, depth))
  {
    if t == [] {
      assert t + rest == rest;
      PrependNothing(Lex(rest, depth));
    } else {
      assert (t + rest)[1..] == t[1..] + rest;
      assert !CDataEnd(t + rest);
      LexLetters(t[1..], rest, depth);
      PrependTwice([Chars([t[0]])], Letters(t[1..]), Lex(rest, depth));
    }
  }

  // Reading what Render wrote gives the tree's events.
  lemma {:induction false} LexRender(kids: seq<Xml>, rest: string, depth: nat)
    requires Writable(kids) && depth > 0 && StartsTag(rest)
    ensures Lex(Render(kids) + rest, depth) == Prepend(Pieces(kids), Lex(rest, depth))
    decreases kids, 0
  {
    if kids == [] {
      assert Render(kids) + rest == rest;
      PrependNothing(Lex(rest, depth));
    } else {
      assert forall i :: 0 <= i < |kids| - 1 ==> kids[1..][i] == kids[i + 1];
      var more := Render(kids[1..]) + rest;
      assert Render(kids) + rest == RenderOne(kids[0]) + more;
      assert |kids| == 1 ==> Render(kids[1..]) == "" && more == rest;
      LexRenderOne(kids[0], more, depth);
      LexRender(kids[1..], rest, depth);
      PrependTwice(PiecesOne(kids[0]), Pieces(kids[1..]), Lex(rest, depth));
    }
  }

  lemma {:induction false} LexRenderOne(x: Xml, rest: string, depth: nat)
    requires Writable([x]) && depth > 0
    requires x.Text? ==> StartsTag(rest) || !EndsInBracket(x.text)
    ensures Lex(RenderOne(x) + rest, depth) == Prepend(PiecesOne(x), Lex(rest, depth))
    decreases x, 1
  {
    assert [x][0] == x;
    match x
    case Text(t) => LexLetters(t, rest, depth);
    case Elem(name, inner) =>
      var close := "</" + name + ">" + rest;
      assert RenderOne(x) + rest == "<" + name + "" + ">" + (Render(inner) + close);
      LexOpen(name, "", Render(inner) + close, depth);
      LexRender(inner, close, depth + 1);
      LexClose(name, rest, depth + 1);
      PrependTwice(Pieces(inner), [End(name)], Lex(rest, depth));
      PrependTwice([Start(name)], Pieces(inner) + [End(name)], Lex(rest, depth));
  }

  lemma Glue(a: string, t: string)
    ensures a + t == if t == [] then a else a + [t[0]] + t[1..]
  {}

  // How the text is cut up makes no difference to the handler.
  lemma {:induction false} RunLetters<H, N>(b: Behaviour<H, N>, s: State<H, N>, t: string)
    ensures Run(b, s, Letters(t)) == Step(b, s, Chars(t))
    decreases t
  {
    if s.IndexError? {
      Crashed<H, N>(b, Letters(t));
    } else if t == [] {
      Glue(s.text, t);
    } else {
      var s1 := Step(b, s, Chars([t[0]]));
      assert Letters(t)[1..] == Letters(t[1..]);
      RunLetters(b, s1, t[1..]);
      Glue(s.text, t);
    }
  }

  lemma {:induction false} RunPieces<H, N>(b: Behaviour<H, N>, s: State<H, N>, kids: seq<Xml>)
    ensures Run(b, s, Pieces(kids)) == Run(b, s, Events(kids))
    decreases kids, 0
  {
    if kids == [] {
    } else {
      RunAppend(b, s, PiecesOne(kids[0]), Pieces(kids[1..]));
      match kids[0]
      case Text(t) =>
        RunLetters(b, s, t);
        RunPieces(b, Step(b, s, Chars(t)), kids[1..]);
        assert Events(kids)[1..] == Events(kids[1..]);
      case Elem(name, inner) =>
        RunPiecesOne(b, s, name, inner);
        RunPieces(b, RunOne(b, s, name, inner), kids[1..]);
        assert kids == [Elem(name, inner)] + kids[1..];
        RunElem(b, s, name, inner, kids[1..]);
    }
  }

  lemma {:induction false} RunPiecesOne<H, N>(b: Behaviour<H, N>, s: State<H, N>, name: string, inner: seq<Xml>)
    ensures Run(b, s, PiecesOne(Elem(name, inner))) == RunOne(b, s, name, inner)
    decreases inner, 1
  {
    var s1 := Step(b, s, Start(name));
    var es := Pieces(inner) + [End(name)];
    assert ([Start(name)] + es)[1..] == es;
    RunAppend(b, s1, Pieces(inner), [End(name)]);
    RunPieces(b, s1, inner);
    assert [End(name)][1..] == [];
  }

  lemma {:induction false} RenderAppend(ks: seq<Xml>, ls: seq<Xml>)
    ensures Render(ks + ls) == Render(ks) + Render(ls)
  {
    if ks == [] {
      assert ks + ls == ls;
    } else {
      assert (ks + ls)[1..] == ks[1..] + ls;
      RenderAppend(ks[1..], ls);
    }
  }
}
