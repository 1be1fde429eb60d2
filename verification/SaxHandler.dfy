/**
  The SAX stack machine shared by boto.handler.XmlHandler and
  boto.jsonresponse.XmlHandler: a stack of named nodes driven by start, end and
  text events. The nodes are parameters: H is the mutable state they share and
  N their references, so a node may accept or decline a child depending on
  everything that happened before.
*/
module SaxHandler {
  import opened Wrappers

  datatype Event = Start(name: string) | End(name: string) | Chars(text: string)

  datatype Xml = Text(text: string) | Elem(name: string, kids: seq<Xml>)

  // startElement returns the stack entry to push, or None to decline.
  datatype Behaviour<!H, !N> = Behaviour(
    start: (H, N, string) -> (H, Option<(string, N)>),
    end: (H, N, string, string) -> H,
    endNode: (H, N) -> H)

  // IndexError is what self.nodes[-1] raises on an empty stack.
  datatype State<H, N> = Running(heap: H, nodes: seq<(string, N)>, text: string) | IndexError

  function Step<H, N>(b: Behaviour<H, N>, s: State<H, N>, e: Event): State<H, N> {
    if s.IndexError? then s
    else if e.Chars? then s.(text := s.text + e.text)
    else if s.nodes == [] then IndexError
    else
      var (top, node) := s.nodes[|s.nodes| - 1];
      if e.Start? then
        var (h, child) := b.start(s.heap, node, e.name);
        Running(h, s.nodes + (if child.Some? then [child.value] else []), "")
      else
        var h := b.end(s.heap, node, e.name, s.text);
        if top == e.name then Running(b.endNode(h, node), s.nodes[..|s.nodes| - 1], "")
        else Running(h, s.nodes, "")
  }

  function Run<H, N>(b: Behaviour<H, N>, s: State<H, N>, events: seq<Event>): State<H, N>
    decreases events
  {
    if events == [] then s else Run(b, Step(b, s, events[0]), events[1..])
  }

  // The events an XML parser delivers for a run of sibling items.
  function Events(kids: seq<Xml>): seq<Event> {
    if kids == [] then []
    else match kids[0]
      case Text(t) => [Chars(t)] + Events(kids[1..])
      case Elem(name, inner) => [Start(name)] + Events(inner) + [End(name)] + Events(kids[1..])
  }

  class XmlHandler<H, N> {
    const behaviour: Behaviour<H, N>
    var heap: H
    var nodes: seq<(string, N)>
    var currentText: string

    ghost function Current(): State<H, N>
      reads this
    {
      Running(heap, nodes, currentText)
    }

    constructor (behaviour: Behaviour<H, N>, heap: H, root: N)
      ensures this.behaviour == behaviour && Current() == Running(heap, [("root", root)], "")
    {
      this.behaviour, this.heap := behaviour, heap;
      nodes, currentText := [("root", root)], "";
    }

    method StartElement(name: string) returns (ok: bool)
      modifies this
      ensures ok <==> old(nodes) != []
      ensures ok ==> Current() == Step(behaviour, old(Current()), Start(name))
    {
      currentText := "";
      if nodes == [] {
        return false;
      }
      var (h, child) := behaviour.start(heap, nodes[|nodes| - 1].1, name);
      heap := h;
      if child.Some? {
        nodes := nodes + [child.value];
      }
      return true;
    }

    method EndElement(name: string) returns (ok: bool)
      modifies this
      ensures ok <==> old(nodes) != []
      ensures ok ==> Current() == Step(behaviour, old(Current()), End(name))
    {
      if nodes == [] {
        return false;
      }
      var (top, node) := nodes[|nodes| - 1];
      heap := behaviour.end(heap, node, name, currentText);
      if top == name {
        heap := behaviour.endNode(heap, node);
        nodes := nodes[..|nodes| - 1];
      }
      currentText := "";
      return true;
    }

    method Characters(content: string)
      modifies this
      ensures Current() == Step(behaviour, old(Current()), Chars(content))
    {
      currentText := currentText + content;
    }

    // What xml.sax does with the handler: deliver the events in order, and
    // stop at the first exception.
    method Parse(events: seq<Event>) returns (ok: bool)
      modifies this
      ensures ok ==> Current() == Run(behaviour, old(Current()), events)
      ensures ok <==> Run(behaviour, old(Current()), events).Running?
    {
      var i := 0;
      assert events[0..] == events;
      while i < |events|
        invariant 0 <= i <= |events|
        invariant Run(behaviour, old(Current()), events) == Run(behaviour, Current(), events[i..])
      {
        var fine := true;
        assert events[i..][0] == events[i] && events[i..][1..] == events[i + 1..];
        match events[i] {
          case Start(name) => fine := StartElement(name);
          case End(name) => fine := EndElement(name);
          case Chars(text) => Characters(text);
        }
        if !fine {
          Crashed<H, N>(behaviour, events[i + 1..]);
          return false;
        }
        i := i + 1;
      }
      return true;
    }
  }

  lemma {:induction false} Crashed<H, N>(b: Behaviour<H, N>, events: seq<Event>)
    ensures Run(b, IndexError, events) == IndexError
  {
    if events == [] {
    } else {
      Crashed(b, events[1..]);
    }
  }

  // ---- the recursive walk ----

  // What a node named `name` and its descendants do to the shared state, and
  // the text left over after its last child, computed over the tree.
  function Walk<H, N>(b: Behaviour<H, N>, h: H, node: N, kids: seq<Xml>, text: string): (H, string)
    decreases kids, 0
  {
    if kids == [] then (h, text)
    else match kids[0]
      case Text(t) => Walk(b, h, node, kids[1..], text + t)
      case Elem(name, inner) => Walk(b, WalkElem(b, h, node, name, inner), node, kids[1..], "")
  }

  // An accepted child handles its own content, its own end and its endNode; a
  // declined one leaves both its content and its end to the parent.
  function WalkElem<H, N>(b: Behaviour<H, N>, h: H, node: N, name: string, inner: seq<Xml>): H
    decreases inner, 1
  {
    var (h1, child) := b.start(h, node, name);
    if child.Some? then
      var (h2, tail) := Walk(b, h1, child.value.1, inner, "");
      b.endNode(b.end(h2, child.value.1, name, tail), child.value.1)
    else
      var (h2, tail) := Walk(b, h1, node, inner, "");
      b.end(h2, node, name, tail)
  }

  // No node declines a child that has the node's own stack name, and accepted
  // children are pushed under their element's name.
  predicate Disciplined<H, N>(b: Behaviour<H, N>, h: H, top: string, node: N, kids: seq<Xml>)
    decreases kids, 0
  {
    if kids == [] then true
    else match kids[0]
      case Text(_) => Disciplined(b, h, top, node, kids[1..])
      case Elem(name, inner) =>
        && DisciplinedElem(b, h, top, node, name, inner)
        && Disciplined(b, WalkElem(b, h, node, name, inner), top, node, kids[1..])
  }

  predicate DisciplinedElem<H, N>(b: Behaviour<H, N>, h: H, top: string, node: N, name: string, inner: seq<Xml>)
    decreases inner, 1
  {
    var (h1, child) := b.start(h, node, name);
    if child.Some? then child.value.0 == name && Disciplined(b, h1, name, child.value.1, inner)
    else name != top && Disciplined(b, h1, top, node, inner)
  }

  lemma {:induction false} RunAppend<H, N>(b: Behaviour<H, N>, s: State<H, N>, es: seq<Event>, fs: seq<Event>)
    ensures Run(b, s, es + fs) == Run(b, Run(b, s, es), fs)
    decreases es
  {
    if es == [] {
      assert es + fs == fs;
    } else {
      assert (es + fs)[1..] == es[1..] + fs;
      RunAppend(b, Step(b, s, es[0]), es[1..], fs);
    }
  }

  // Running the events of an element: its start, its content, its end.
  lemma RunElem<H, N>(b: Behaviour<H, N>, s: State<H, N>, name: string, inner: seq<Xml>, rest: seq<Xml>)
    ensures Run(b, s, Events([Elem(name, inner)] + rest)) ==
      Run(b, Step(b, Run(b, Step(b, s, Start(name)), Events(inner)), End(name)), Events(rest))
  {
    var kids := [Elem(name, inner)] + rest;
    assert kids[1..] == rest;
    var s1 := Step(b, s, Start(name));
    var es := [Start(name)] + Events(inner) + [End(name)] + Events(rest);
    assert Events(kids) == es;
    assert es[1..] == Events(inner) + ([End(name)] + Events(rest));
    RunAppend(b, s1, Events(inner), [End(name)] + Events(rest));
    assert ([End(name)] + Events(rest))[1..] == Events(rest);
  }

  // The machine computes the walk and restores its stack.
  lemma {:induction false} MachineIsWalk<H, N>(
    b: Behaviour<H, N>, h: H, below: seq<(string, N)>, top: string, node: N, kids: seq<Xml>, text: string)
    requires Disciplined(b, h, top, node, kids)
    ensures Run(b, Running(h, below + [(top, node)], text), Events(kids)) ==
      Running(Walk(b, h, node, kids, text).0, below + [(top, node)], Walk(b, h, node, kids, text).1)
    decreases kids, 0
  {
    if kids == [] {
    } else {
      var s := Running(h, below + [(top, node)], text);
      match kids[0]
      case Text(t) =>
        MachineIsWalk(b, h, below, top, node, kids[1..], text + t);
        assert Events(kids)[1..] == Events(kids[1..]);
      case Elem(name, inner) =>
        ElemIsWalk(b, h, below, top, node, name, inner, text);
        MachineIsWalk(b, WalkElem(b, h, node, name, inner), below, top, node, kids[1..], "");
        assert kids == [Elem(name, inner)] + kids[1..];
        RunElem(b, s, name, inner, kids[1..]);
    }
  }

  lemma {:induction false} ElemIsWalk<H, N>(
    b: Behaviour<H, N>, h: H, below: seq<(string, N)>, top: string, node: N, name: string, inner: seq<Xml>, text: string)
    requires DisciplinedElem(b, h, top, node, name, inner)
    ensures
      Step(b, Run(b, Step(b, Running(h, below + [(top, node)], text), Start(name)), Events(inner)), End(name)) ==
      Running(WalkElem(b, h, node, name, inner), below + [(top, node)], "")
    decreases inner, 1
  {
    var (h1, child) := b.start(h, node, name);
    var nodes := below + [(top, node)];
    if child.Some? {
      MachineIsWalk(b, h1, nodes, name, child.value.1, inner, "");
      assert (nodes + [(name, child.value.1)])[..|nodes|] == nodes;
    } else {
      assert nodes + [] == nodes;
      MachineIsWalk(b, h1, below, top, node, inner, "");
    }
  }

  // The handler as parse() runs it: the stack holds only the root. After the
  // document the stack is back and the shared state is the walk's.
  lemma ParseIsWalk<H, N>(b: Behaviour<H, N>, h: H, root: N, document: seq<Xml>)
    requires Disciplined(b, h, "root", root, document)
    ensures Run(b, Running(h, [("root", root)], ""), Events(document)) ==
      Running(Walk(b, h, root, document, "").0, [("root", root)], Walk(b, h, root, document, "").1)
  {
    MachineIsWalk(b, h, [], "root", root, document, "");
    assert [] + [("root", root)] == [("root", root)];
  }

  // ---- the condition is exact ----

  // The machine is back on its stack after every element of the tree.
  ghost predicate AllRestored<H, N>(b: Behaviour<H, N>, s: State<H, N>, kids: seq<Xml>)
    decreases kids, 0
  {
    if kids == [] then true
    else match kids[0]
      case Text(t) => AllRestored(b, Step(b, s, Chars(t)), kids[1..])
      case Elem(name, inner) =>
        && ElemRestored(b, s, name, inner)
        && AllRestored(b, RunOne(b, s, name, inner), kids[1..])
  }

  ghost predicate ElemRestored<H, N>(b: Behaviour<H, N>, s: State<H, N>, name: string, inner: seq<Xml>)
    decreases inner, 1
  {
    var r := RunOne(b, s, name, inner);
    && s.Running? && r.Running? && r.nodes == s.nodes
    && AllRestored(b, Step(b, s, Start(name)), inner)
  }

  function RunOne<H, N>(b: Behaviour<H, N>, s: State<H, N>, name: string, inner: seq<Xml>): State<H, N> {
    Step(b, Run(b, Step(b, s, Start(name)), Events(inner)), End(name))
  }

  // Every element of a tree leaves the stack as it found it if and only if no
  // node declines a child with the node's own stack name (and accepted
  // children are pushed under their own).
  lemma {:induction false} DisciplineIsExact<H, N>(
    b: Behaviour<H, N>, h: H, below: seq<(string, N)>, top: string, node: N, kids: seq<Xml>, text: string)
    ensures AllRestored(b, Running(h, below + [(top, node)], text), kids) <==> Disciplined(b, h, top, node, kids)
    decreases kids, 0
  {
    if kids == [] {
    } else {
      var s := Running(h, below + [(top, node)], text);
      match kids[0]
      case Text(t) =>
        DisciplineIsExact(b, h, below, top, node, kids[1..], text + t);
      case Elem(name, inner) =>
        ElemDisciplineIsExact(b, h, below, top, node, name, inner, text);
        if DisciplinedElem(b, h, top, node, name, inner) {
          ElemIsWalk(b, h, below, top, node, name, inner, text);
          DisciplineIsExact(b, WalkElem(b, h, node, name, inner), below, top, node, kids[1..], "");
        }
    }
  }

  lemma {:induction false} ElemDisciplineIsExact<H, N>(
    b: Behaviour<H, N>, h: H, below: seq<(string, N)>, top: string, node: N, name: string, inner: seq<Xml>, text: string)
    ensures ElemRestored(b, Running(h, below + [(top, node)], text), name, inner) <==>
      DisciplinedElem(b, h, top, node, name, inner)
    decreases inner, 1
  {
    var nodes := below + [(top, node)];
    var (h1, child) := b.start(h, node, name);
    if child.Some? {
      var (pushed, ref) := child.value;
      DisciplineIsExact(b, h1, nodes, pushed, ref, inner, "");
      if Disciplined(b, h1, pushed, ref, inner) {
        MachineIsWalk(b, h1, nodes, pushed, ref, inner, "");
        assert (nodes + [(pushed, ref)])[..|nodes|] == nodes;
      }
    } else {
      assert nodes + [] == nodes;
      DisciplineIsExact(b, h1, below, top, node, inner, "");
      if Disciplined(b, h1, top, node, inner) {
        MachineIsWalk(b, h1, below, top, node, inner, "");
      }
    }
  }

  // It does fail: a root that declines an element called root is popped by
  // that element's end, and the next event finds the stack empty.
  lemma DeclinedRootPopsRoot<H, N>(b: Behaviour<H, N>, h: H, root: N, next: string)
    requires b.start(h, root, "root").1.None?
    ensures var s := Running(h, [("root", root)], ""); var popped := Run(b, s, Events([Elem("root", [])]));
      popped.Running? && popped.nodes == [] && Step(b, popped, Start(next)) == IndexError
  {
    var s := Running(h, [("root", root)], "");
    var document := [Elem("root", [])];
    assert document == [Elem("root", [])] + [];
    RunElem(b, s, "root", [], []);
    var s1 := Step(b, s, Start("root"));
    assert s1.nodes == [("root", root)];
  }

  // ---- a condition on the document alone ----

  // No element is nested in one of the same name, nor named as one of `outer`.
  predicate NamesNest(kids: seq<Xml>, outer: set<string>)
    decreases kids
  {
    forall i :: 0 <= i < |kids| && kids[i].Elem? ==>
      kids[i].name !in outer && NamesNest(kids[i].kids, outer + {kids[i].name})
  }

  ghost predicate PushesOwnName<H(!new), N(!new)>(b: Behaviour<H, N>) {
    forall h, node, name :: b.start(h, node, name).1.Some? ==> b.start(h, node, name).1.value.0 == name
  }

  // Such a document keeps every choice of nodes disciplined.
  lemma {:induction false} NestingIsDisciplined<H(!new), N(!new)>(
    b: Behaviour<H, N>, h: H, top: string, node: N, kids: seq<Xml>, outer: set<string>)
    requires PushesOwnName(b) && NamesNest(kids, outer) && top in outer
    ensures Disciplined(b, h, top, node, kids)
    decreases kids, 0
  {
    if kids == [] {
    } else {
      assert forall i :: 0 <= i < |kids| - 1 ==> kids[1..][i] == kids[i + 1];
      match kids[0]
      case Text(_) => NestingIsDisciplined(b, h, top, node, kids[1..], outer);
      case Elem(name, inner) =>
        var (h1, child) := b.start(h, node, name);
        if child.Some? {
          NestingIsDisciplined(b, h1, name, child.value.1, inner, outer + {name});
        } else {
          NestingIsDisciplined(b, h1, top, node, inner, outer + {name});
        }
        NestingIsDisciplined(b, WalkElem(b, h, node, name, inner), top, node, kids[1..], outer);
    }
  }

  lemma {:induction false} WalkAppend<H, N>(b: Behaviour<H, N>, h: H, node: N, ks: seq<Xml>, ls: seq<Xml>, text: string)
    ensures var (h', text') := Walk(b, h, node, ks, text);
      Walk(b, h, node, ks + ls, text) == Walk(b, h', node, ls, text')
    decreases ks
  {
    if ks == [] {
      assert ks + ls == ls;
    } else {
      assert (ks + ls)[1..] == ks[1..] + ls;
      match ks[0]
      case Text(t) => WalkAppend(b, h, node, ks[1..], ls, text + t);
      case Elem(name, inner) => WalkAppend(b, WalkElem(b, h, node, name, inner), node, ks[1..], ls, "");
    }
  }
}
