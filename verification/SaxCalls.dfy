/**
  The calls boto.handler.XmlHandler makes to its nodes, as a log: nodes that
  accept or decline children as an arbitrary oracle says, given all that
  happened so far.
*/
module SaxCalls {
  import opened Wrappers
  import opened SaxHandler

  // Nodes are numbered as they are pushed; the root is node 0.
  datatype Call =
    | Started(node: nat, name: string)
    | Pushed(node: nat)
    | Ended(node: nat, name: string, text: string)
    | NodeEnded(node: nat)

  datatype Log = Log(calls: seq<Call>, next: nat)

  function Recorder(accepts: (seq<Call>, nat, string) -> bool): Behaviour<Log, nat> {
    Behaviour(
      (h: Log, node: nat, name: string) =>
        var calls := h.calls + [Started(node, name)];
        if accepts(h.calls, node, name) then (Log(calls + [Pushed(h.next)], h.next + 1), Some((name, h.next)))
        else (Log(calls, h.next), None),
      (h: Log, node: nat, name: string, text: string) => h.(calls := h.calls + [Ended(node, name, text)]),
      (h: Log, node: nat) => h.(calls := h.calls + [NodeEnded(node)]))
  }

  // ---- replaying the calls against the elements of the document ----

  // An element that has started: the node that accepted it, if any, and
  // whether that node has seen the element's end and only its endNode is due.
  datatype Frame = Frame(name: string, node: Option<nat>, ending: bool)

  // The elements that are open, innermost last, and how many nodes were pushed.
  datatype Progress = Progress(frames: seq<Frame>, pushed: nat)

  // The node of the innermost open element that has one, or else the root.
  function Nearest(frames: seq<Frame>): nat {
    if frames == [] then 0
    else if frames[|frames| - 1].node.Some? then frames[|frames| - 1].node.value
    else Nearest(frames[..|frames| - 1])
  }

  // A start or an end must reach the nearest node, an end must be that of the
  // innermost open element, and endNode must follow the end of the element
  // that a node accepted, and nothing else may. None is a call out of place.
  function ReplayOne(p: Progress, call: Call): Option<Progress> {
    var n := |p.frames|;
    if n > 0 && p.frames[n - 1].ending then
      if call.NodeEnded? && p.frames[n - 1].node == Some(call.node) then Some(p.(frames := p.frames[..n - 1])) else None
    else match call
      case Started(node, name) =>
        if node == Nearest(p.frames) then Some(p.(frames := p.frames + [Frame(name, None, false)])) else None
      case Pushed(node) =>
        if n > 0 && p.frames[n - 1].node.None? && node == p.pushed + 1
        then Some(Progress(p.frames[..n - 1] + [p.frames[n - 1].(node := Some(node))], node)) else None
      case Ended(node, name, _) =>
        if n == 0 || p.frames[n - 1].name != name || node != Nearest(p.frames) then None
        else if p.frames[n - 1].node.None? then Some(p.(frames := p.frames[..n - 1]))
        else Some(p.(frames := p.frames[..n - 1] + [p.frames[n - 1].(ending := true)]))
      case NodeEnded(_) => None
  }

  function Replay(calls: seq<Call>): Option<Progress> {
    if calls == [] then Some(Progress([], 0))
    else
      var before := Replay(calls[..|calls| - 1]);
      if before.None? then None else ReplayOne(before.value, calls[|calls| - 1])
  }

  lemma ReplayStep(calls: seq<Call>, call: Call)
    ensures Replay(calls + [call]) == if Replay(calls).None? then None else ReplayOne(Replay(calls).value, call)
  {
    assert (calls + [call])[..|calls|] == calls;
  }

  // The calls so far are in place, these elements are open, and `node` is the
  // one that is to see what comes next.
  ghost predicate InPlace(h: Log, frames: seq<Frame>, node: nat) {
    && h.next > 0 && Replay(h.calls) == Some(Progress(frames, h.next - 1))
    && Nearest(frames) == node && (frames == [] || !frames[|frames| - 1].ending)
  }

  lemma NearestOfLast(frames: seq<Frame>, f: Frame)
    ensures Nearest(frames + [f]) == if f.node.Some? then f.node.value else Nearest(frames)
  {
    assert (frames + [f])[..|frames|] == frames;
  }

  // A start, before it is known whether the element is accepted.
  lemma AskedInPlace(h: Log, frames: seq<Frame>, node: nat, name: string)
    requires InPlace(h, frames, node)
    ensures InPlace(Log(h.calls + [Started(node, name)], h.next), frames + [Frame(name, None, false)], node)
  {
    ReplayStep(h.calls, Started(node, name));
    NearestOfLast(frames, Frame(name, None, false));
  }

  lemma PushedInPlace(h: Log, frames: seq<Frame>, node: nat, name: string)
    requires InPlace(h, frames + [Frame(name, None, false)], node)
    ensures InPlace(Log(h.calls + [Pushed(h.next)], h.next + 1), frames + [Frame(name, Some(h.next), false)], h.next)
  {
    var asked, filled := Frame(name, None, false), Frame(name, Some(h.next), false);
    assert (frames + [asked])[..|frames|] == frames && (frames + [asked])[|frames|] == asked;
    ReplayStep(h.calls, Pushed(h.next));
    NearestOfLast(frames, filled);
  }

  lemma StartInPlace(accepts: (seq<Call>, nat, string) -> bool, h: Log, frames: seq<Frame>, node: nat, name: string)
    requires InPlace(h, frames, node)
    ensures var (h1, child) := Recorder(accepts).start(h, node, name);
      if child.Some? then
        child == Some((name, h.next)) && InPlace(h1, frames + [Frame(name, Some(h.next), false)], h.next)
      else InPlace(h1, frames + [Frame(name, None, false)], node)
  {
    AskedInPlace(h, frames, node, name);
    PushedInPlace(Log(h.calls + [Started(node, name)], h.next), frames, node, name);
  }

  // The end of a declined element, which its parent sees.
  lemma DeclinedEnd(h: Log, frames: seq<Frame>, node: nat, name: string, text: string)
    requires InPlace(h, frames + [Frame(name, None, false)], node) && (frames == [] || !frames[|frames| - 1].ending)
    ensures InPlace(Log(h.calls + [Ended(node, name, text)], h.next), frames, node)
  {
    NearestOfLast(frames, Frame(name, None, false));
    assert (frames + [Frame(name, None, false)])[..|frames|] == frames;
    ReplayStep(h.calls, Ended(node, name, text));
  }

  // The end of an accepted element,
  lemma EndedInPlace(h: Log, frames: seq<Frame>, id: nat, name: string, text: string)
    requires InPlace(h, frames + [Frame(name, Some(id), false)], id)
    ensures Replay(h.calls + [Ended(id, name, text)]) == Some(Progress(frames + [Frame(name, Some(id), true)], h.next - 1))
  {
    assert (frames + [Frame(name, Some(id), false)])[..|frames|] == frames;
    ReplayStep(h.calls, Ended(id, name, text));
  }

  // and the endNode after it.
  lemma NodeEndedInPlace(h: Log, frames: seq<Frame>, node: nat, id: nat, name: string)
    requires h.next > 0 && Replay(h.calls) == Some(Progress(frames + [Frame(name, Some(id), true)], h.next - 1))
    requires Nearest(frames) == node && (frames == [] || !frames[|frames| - 1].ending)
    ensures InPlace(Log(h.calls + [NodeEnded(id)], h.next), frames, node)
  {
    assert (frames + [Frame(name, Some(id), true)])[..|frames|] == frames;
    ReplayStep(h.calls, NodeEnded(id));
  }

  lemma {:induction false} WalkInPlace(
    accepts: (seq<Call>, nat, string) -> bool, h: Log, frames: seq<Frame>, node: nat, kids: seq<Xml>, text: string)
    requires InPlace(h, frames, node)
    ensures InPlace(Walk(Recorder(accepts), h, node, kids, text).0, frames, node)
    decreases kids, 0
  {
    if kids == [] {
    } else {
      match kids[0]
      case Text(t) => WalkInPlace(accepts, h, frames, node, kids[1..], text + t);
      case Elem(name, inner) =>
        ElemInPlace(accepts, h, frames, node, name, inner);
        WalkInPlace(accepts, WalkElem(Recorder(accepts), h, node, name, inner), frames, node, kids[1..], "");
    }
  }

  lemma {:induction false} ElemInPlace(
    accepts: (seq<Call>, nat, string) -> bool, h: Log, frames: seq<Frame>, node: nat, name: string, inner: seq<Xml>)
    requires InPlace(h, frames, node)
    ensures InPlace(WalkElem(Recorder(accepts), h, node, name, inner), frames, node)
    decreases inner, 1
  {
    var b := Recorder(accepts);
    var (h1, child) := b.start(h, node, name);
    StartInPlace(accepts, h, frames, node, name);
    if child.Some? {
      var id := child.value.1;
      WalkInPlace(accepts, h1, frames + [Frame(name, Some(id), false)], id, inner, "");
      var (h2, tail) := Walk(b, h1, id, inner, "");
      EndedInPlace(h2, frames, id, name, tail);
      NodeEndedInPlace(Log(h2.calls + [Ended(id, name, tail)], h2.next), frames, node, id, name);
    } else {
      WalkInPlace(accepts, h1, frames + [Frame(name, None, false)], node, inner, "");
      var (h2, tail) := Walk(b, h1, node, inner, "");
      DeclinedEnd(h2, frames, node, name, tail);
    }
  }

  // ---- and when they go out of place ----

  // The run has raised an exception, or made a call out of place.
  predicate Astray(s: State<Log, nat>) {
    s.IndexError? || Replay(s.heap.calls).None?
  }

  lemma AstrayStep(accepts: (seq<Call>, nat, string) -> bool, s: State<Log, nat>, e: Event)
    requires Astray(s)
    ensures Astray(Step(Recorder(accepts), s, e))
  {
    if s.Running? && s.nodes != [] && !e.Chars? {
      var (top, node) := s.nodes[|s.nodes| - 1];
      var calls := s.heap.calls;
      if e.Start? {
        ReplayStep(calls, Started(node, e.name));
        ReplayStep(calls + [Started(node, e.name)], Pushed(s.heap.next));
      } else {
        ReplayStep(calls, Ended(node, e.name, s.text));
        ReplayStep(calls + [Ended(node, e.name, s.text)], NodeEnded(node));
      }
    }
  }

  lemma {:induction false} AstrayForGood(accepts: (seq<Call>, nat, string) -> bool, s: State<Log, nat>, events: seq<Event>)
    requires Astray(s)
    ensures Astray(Run(Recorder(accepts), s, events))
    decreases events
  {
    if events == [] {
    } else {
      AstrayStep(accepts, s, events[0]);
      AstrayForGood(accepts, Step(Recorder(accepts), s, events[0]), events[1..]);
    }
  }

  lemma {:induction false} UndisciplinedStrays(
    accepts: (seq<Call>, nat, string) -> bool, h: Log, below: seq<(string, nat)>, top: string, node: nat,
    frames: seq<Frame>, kids: seq<Xml>, text: string)
    requires InPlace(h, frames, node) && !Disciplined(Recorder(accepts), h, top, node, kids)
    ensures Astray(Run(Recorder(accepts), Running(h, below + [(top, node)], text), Events(kids)))
    decreases kids, 0
  {
    var b, s := Recorder(accepts), Running(h, below + [(top, node)], text);
    match kids[0]
    case Text(t) =>
      UndisciplinedStrays(accepts, h, below, top, node, frames, kids[1..], text + t);
      assert Events(kids)[1..] == Events(kids[1..]);
    case Elem(name, inner) =>
      assert kids == [Elem(name, inner)] + kids[1..];
      RunElem(b, s, name, inner, kids[1..]);
      if DisciplinedElem(b, h, top, node, name, inner) {
        ElemIsWalk(b, h, below, top, node, name, inner, text);
        ElemInPlace(accepts, h, frames, node, name, inner);
        UndisciplinedStrays(accepts, WalkElem(b, h, node, name, inner), below, top, node, frames, kids[1..], "");
      } else {
        ElemStrays(accepts, h, below, top, node, frames, name, inner, text);
        AstrayForGood(accepts, RunOne(b, s, name, inner), Events(kids[1..]));
      }
  }

  lemma {:induction false} ElemStrays(
    accepts: (seq<Call>, nat, string) -> bool, h: Log, below: seq<(string, nat)>, top: string, node: nat,
    frames: seq<Frame>, name: string, inner: seq<Xml>, text: string)
    requires InPlace(h, frames, node) && !DisciplinedElem(Recorder(accepts), h, top, node, name, inner)
    ensures Astray(RunOne(Recorder(accepts), Running(h, below + [(top, node)], text), name, inner))
    decreases inner, 1
  {
    var b, nodes := Recorder(accepts), below + [(top, node)];
    var (h1, child) := b.start(h, node, name);
    StartInPlace(accepts, h, frames, node, name);
    var after := Run(b, Step(b, Running(h, nodes, text), Start(name)), Events(inner));
    if child.Some? {
      UndisciplinedStrays(accepts, h1, nodes, name, h.next, frames + [Frame(name, Some(h.next), false)], inner, "");
      AstrayStep(accepts, after, End(name));
    } else {
      assert nodes + [] == nodes;
      if Disciplined(b, h1, top, node, inner) {
        MachineIsWalk(b, h1, below, top, node, inner, "");
        WalkInPlace(accepts, h1, frames + [Frame(name, None, false)], node, inner, "");
        EarlyPop(after.heap, frames, node, name, after.text);
      } else {
        UndisciplinedStrays(accepts, h1, below, top, node, frames + [Frame(name, None, false)], inner, "");
        AstrayStep(accepts, after, End(name));
      }
    }
  }

  // endNode at the end of a declined element is out of place.
  lemma EarlyPop(h: Log, frames: seq<Frame>, node: nat, name: string, text: string)
    requires InPlace(h, frames + [Frame(name, None, false)], node) && (frames == [] || !frames[|frames| - 1].ending)
    ensures Replay(h.calls + [Ended(node, name, text)] + [NodeEnded(node)]) == None
  {
    DeclinedEnd(h, frames, node, name, text);
    ReplayStep(h.calls + [Ended(node, name, text)], NodeEnded(node));
  }

  // The starts and ends among the calls, and among the events.
  function CalledTags(calls: seq<Call>): seq<Event> {
    if calls == [] then []
    else
      CalledTags(calls[..|calls| - 1]) +
      match calls[|calls| - 1]
      case Started(_, name) => [Start(name)]
      case Ended(_, name, _) => [End(name)]
      case _ => []
  }

  function Tags(events: seq<Event>): seq<Event> {
    if events == [] then [] else (if events[0].Chars? then [] else [events[0]]) + Tags(events[1..])
  }

  lemma CalledTagsStep(calls: seq<Call>, call: Call)
    ensures CalledTags(calls + [call]) == CalledTags(calls) +
      match call case Started(_, name) => [Start(name)] case Ended(_, name, _) => [End(name)] case _ => []
  {
    assert (calls + [call])[..|calls|] == calls;
  }

  // Whatever the nodes accept, the nodes are called for the document's tags,
  // in order.
  lemma {:induction false} CallsAreTags(accepts: (seq<Call>, nat, string) -> bool, s: State<Log, nat>, events: seq<Event>)
    requires s.Running?
    ensures var end := Run(Recorder(accepts), s, events);
      end.Running? ==> CalledTags(end.heap.calls) == CalledTags(s.heap.calls) + Tags(events)
    decreases events
  {
    if events == [] {
      assert CalledTags(s.heap.calls) + [] == CalledTags(s.heap.calls);
    } else {
      var s1 := Step(Recorder(accepts), s, events[0]);
      if s1.IndexError? {
        Crashed(Recorder(accepts), events[1..]);
      } else {
        TagOfStep(accepts, s, events[0]);
        CallsAreTags(accepts, s1, events[1..]);
        TagsStep(CalledTags(s.heap.calls), events);
      }
    }
  }

  lemma TagsStep(before: seq<Event>, events: seq<Event>)
    requires events != []
    ensures before + Tags(events) == before + (if events[0].Chars? then [] else [events[0]]) + Tags(events[1..])
  {}

  lemma TagOfStep(accepts: (seq<Call>, nat, string) -> bool, s: State<Log, nat>, e: Event)
    requires s.Running? && Step(Recorder(accepts), s, e).Running?
    ensures CalledTags(Step(Recorder(accepts), s, e).heap.calls) ==
      CalledTags(s.heap.calls) + if e.Chars? then [] else [e]
  {
    var calls, tags := s.heap.calls, CalledTags(s.heap.calls);
    if !e.Chars? {
      var (top, node) := s.nodes[|s.nodes| - 1];
      if e.Start? {
        CalledTagsStep(calls, Started(node, e.name));
        CalledTagsStep(calls + [Started(node, e.name)], Pushed(s.heap.next));
      } else {
        CalledTagsStep(calls, Ended(node, e.name, s.text));
        CalledTagsStep(calls + [Ended(node, e.name, s.text)], NodeEnded(node));
      }
      assert tags + [e] + [] == tags + [e];
    } else {
      assert tags + [] == tags;
    }
  }

  // In a run of the handler over a document the nodes are called for exactly
  // its tags. Every start and end of an element reaches the innermost open
  // element's node that accepted, and endNode is called on each pushed node
  // once, at the end of the element it accepted, if and only if no node
  // declines a child with the node's own stack name.
  lemma CallsNest(accepts: (seq<Call>, nat, string) -> bool, document: seq<Xml>)
    ensures var s := Run(Recorder(accepts), Running(Log([], 1), [("root", 0)], ""), Events(document));
      && (Disciplined(Recorder(accepts), Log([], 1), "root", 0, document) <==>
            && s.Running? && s.nodes == [("root", 0)]
            && Replay(s.heap.calls).Some? && Replay(s.heap.calls).value.frames == [])
      && (s.Running? ==> CalledTags(s.heap.calls) == Tags(Events(document)))
  {
    var b, h := Recorder(accepts), Log([], 1);
    assert InPlace(h, [], 0);
    assert [] + [("root", 0)] == [("root", 0)];
    if Disciplined(b, h, "root", 0, document) {
      ParseIsWalk(b, h, 0, document);
      WalkInPlace(accepts, h, [], 0, document, "");
    } else {
      UndisciplinedStrays(accepts, h, [], "root", 0, [], document, "");
    }
    CallsAreTags(accepts, Running(h, [("root", 0)], ""), Events(document));
    assert [] + Tags(Events(document)) == Tags(Events(document));
  }

  // ---- documents that are safe whatever the nodes accept ----

  // An element called name occurs, at any depth.
  predicate Occurs(kids: seq<Xml>, name: string)
    decreases kids
  {
    kids != [] && ((kids[0].Elem? && (kids[0].name == name || Occurs(kids[0].kids, name))) || Occurs(kids[1..], name))
  }

  // An element called name occurs inside another one.
  predicate OccursInside(kids: seq<Xml>, name: string)
    decreases kids
  {
    kids != [] &&
    ((kids[0].Elem? && ((kids[0].name == name && Occurs(kids[0].kids, name)) || OccursInside(kids[0].kids, name)))
     || OccursInside(kids[1..], name))
  }

  // A document that is not properly nested repeats some name.
  lemma {:induction false} RepeatedName(kids: seq<Xml>, outer: set<string>) returns (name: string)
    requires !NamesNest(kids, outer)
    ensures (name in outer && Occurs(kids, name)) || OccursInside(kids, name)
    decreases kids
  {
    var x := kids[0];
    if x.Elem? && x.name in outer {
      name := x.name;
    } else if x.Elem? && !NamesNest(x.kids, outer + {x.name}) {
      name := RepeatedName(x.kids, outer + {x.name});
    } else {
      assert forall i :: 1 <= i < |kids| ==> kids[i] == kids[1..][i - 1];
      assert forall i :: 0 <= i < |kids[1..]| ==> kids[1..][i] == kids[i + 1];
      name := RepeatedName(kids[1..], outer);
    }
  }

  // The root takes elements called name, if that is not its own name, and
  // every other element is declined.
  function Only(name: string): (seq<Call>, nat, string) -> bool {
    (calls, node, tag) => node == 0 && tag == name && name != "root"
  }

  // A node that declines everything breaks the discipline on its own name.
  lemma {:induction false} DeclinesOwnName(only: string, h: Log, node: nat, name: string, kids: seq<Xml>)
    requires Occurs(kids, name) && (node != 0 || only == "root")
    ensures !Disciplined(Recorder(Only(only)), h, name, node, kids)
    decreases kids
  {
    var b := Recorder(Only(only));
    match kids[0]
    case Text(_) => DeclinesOwnName(only, h, node, name, kids[1..]);
    case Elem(tag, inner) =>
      if tag != name {
        var (h1, child) := b.start(h, node, tag);
        if Occurs(inner, name) {
          DeclinesOwnName(only, h1, node, name, inner);
        } else {
          DeclinesOwnName(only, WalkElem(b, h, node, tag, inner), node, name, kids[1..]);
        }
      }
  }

  lemma {:induction false} NumbersGrow(b: (seq<Call>, nat, string) -> bool, h: Log, node: nat, kids: seq<Xml>, text: string)
    ensures h.next <= Walk(Recorder(b), h, node, kids, text).0.next
    decreases kids, 0
  {
    if kids == [] {
    } else {
      match kids[0]
      case Text(t) => NumbersGrow(b, h, node, kids[1..], text + t);
      case Elem(name, inner) =>
        NumbersGrowElem(b, h, node, name, inner);
        NumbersGrow(b, WalkElem(Recorder(b), h, node, name, inner), node, kids[1..], "");
    }
  }

  lemma {:induction false} NumbersGrowElem(b: (seq<Call>, nat, string) -> bool, h: Log, node: nat, name: string, inner: seq<Xml>)
    ensures h.next <= WalkElem(Recorder(b), h, node, name, inner).next
    decreases inner, 1
  {
    var (h1, child) := Recorder(b).start(h, node, name);
    NumbersGrow(b, h1, if child.Some? then child.value.1 else node, inner, "");
  }

  // With an element inside one of the same name, accepting just the outer one
  // breaks the discipline.
  lemma {:induction false} InsideBreaks(h: Log, name: string, kids: seq<Xml>)
    requires OccursInside(kids, name) && name != "root" && h.next > 0
    ensures !Disciplined(Recorder(Only(name)), h, "root", 0, kids)
    decreases kids
  {
    var b := Recorder(Only(name));
    match kids[0]
    case Text(_) => InsideBreaks(h, name, kids[1..]);
    case Elem(tag, inner) =>
      var (h1, child) := b.start(h, 0, tag);
      NumbersGrowElem(Only(name), h, 0, tag, inner);
      if tag == name && Occurs(inner, name) {
        DeclinesOwnName(name, h1, h.next, name, inner);
      } else if tag != name && OccursInside(inner, name) {
        InsideBreaks(h1, name, inner);
      } else {
        if OccursInside(inner, name) {
          InsideOccurs(inner, name);
        }
        InsideBreaks(WalkElem(b, h, 0, tag, inner), name, kids[1..]);
      }
  }

  lemma {:induction false} InsideOccurs(kids: seq<Xml>, name: string)
    requires OccursInside(kids, name)
    ensures Occurs(kids, name)
    decreases kids
  {
    if OccursInside(kids[1..], name) {
      InsideOccurs(kids[1..], name);
    } else if kids[0].name != name {
      InsideOccurs(kids[0].kids, name);
    }
  }

  // The handler is safe on a document whatever its nodes accept exactly when
  // no element is inside one of the same name, and none is called root.
  lemma SafeForAllIff(document: seq<Xml>)
    ensures NamesNest(document, {"root"}) <==>
      forall accepts :: Disciplined(Recorder(accepts), Log([], 1), "root", 0, document)
  {
    if NamesNest(document, {"root"}) {
      forall accepts ensures Disciplined(Recorder(accepts), Log([], 1), "root", 0, document) {
        NestingIsDisciplined(Recorder(accepts), Log([], 1), "root", 0, document, {"root"});
      }
    } else {
      var name := RepeatedName(document, {"root"});
      if name == "root" {
        if OccursInside(document, name) {
          InsideOccurs(document, name);
        }
        DeclinesOwnName("root", Log([], 1), 0, "root", document);
      } else {
        InsideBreaks(Log([], 1), name, document);
      }
      assert !Disciplined(Recorder(Only(name)), Log([], 1), "root", 0, document);
    }
  }
}
