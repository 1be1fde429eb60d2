/**
  The event handlers of boto.jsonresponse's Element and ListElement as the
  methods that update them in place, proved against the handler functions of
  JsonResponse. All nodes of one parse and their name stacks are the state.
*/
module JsonNodes {
  import opened Wrappers
  import opened SaxHandler
  import opened Text
  import opened JsonResponse

  class Nodes {
    const cfg: Config
    var objs: seq<Object>
    var stacks: seq<seq<string>>

    ghost function Current(): Heap
      reads this
    {
      Heap(objs, stacks)
    }

    // Element(): the root of a parse.
    constructor (cfg: Config)
      ensures this.cfg == cfg && Current() == Fresh([])
    {
      this.cfg := cfg;
      objs, stacks := [ElementObj(map[], None, 0)], [[]];
    }

    method StartElement(self: nat, name: string) returns (child: Option<(string, nat)>)
      requires Closed(Current()) && self < |objs|
      modifies this
      ensures (Current(), child) == StartNode(cfg, old(Current()), self, name)
    {
      if objs[self].ElementObj? {
        child := ElementStart(self, name);
      } else {
        child := ListStart(self, name);
      }
    }

    method EndElement(self: nat, name: string, text: string)
      requires Closed(Current()) && self < |objs|
      modifies this
      ensures Current() == EndNode(cfg, old(Current()), self, name, text)
    {
      if objs[self].ElementObj? {
        ElementEnd(self, name, text);
      } else {
        ListEnd(self, name, text);
      }
    }

    predicate IsElement(r: nat)
      reads this
    {
      r < |objs| && objs[r].ElementObj? && objs[r].stack < |stacks|
    }

    // for lm in self.list_marker: if name.endswith(lm)
    method MatchesListMarker(name: string) returns (found: bool)
      ensures found <==> IsListName(cfg, name)
    {
      for i := 0 to |cfg.listMarkers|
        invariant forall j :: 0 <= j < i ==> !EndsWith(name, cfg.listMarkers[j])
      {
        if EndsWith(name, cfg.listMarkers[i]) {
          return true;
        }
      }
      return false;
    }

    method Allocate(o: Object) returns (r: nat)
      modifies this`objs
      ensures r == |old(objs)| && objs == old(objs) + [o]
    {
      r := |objs|;
      objs := objs + [o];
    }

    method ElementStart(self: nat, name: string) returns (child: Option<(string, nat)>)
      requires IsElement(self)
      modifies this
      ensures (Current(), child) == StartInElement(cfg, old(Current()), self, name)
    {
      var stack := objs[self].stack;
      stacks := stacks[stack := stacks[stack] + [name]];
      var isList := MatchesListMarker(name);
      if isList {
        var l := Allocate(ListObj([], map[], Some(name)));
        PutEntry(self, cfg.getName(name), Ref(l));
        UpdateBefore(old(objs), self, objs[self], objs[l]);
        return Some((name, l));
      }
      if |stacks[stack]| > 0 {
        var elementName := stacks[stack][|stacks[stack]| - 1];
        var e := Allocate(ElementObj(map[], Some(self), stack));
        PutEntry(self, cfg.getName(elementName), Ref(e));
        UpdateBefore(old(objs), self, objs[self], objs[e]);
        return Some((elementName, e));
      } else {
        return None;
      }
    }

    method PutEntry(r: nat, key: string, v: Value)
      requires r < |objs| && objs[r].ElementObj?
      modifies this`objs
      ensures objs == old(objs)[r := old(objs)[r].(entries := old(objs)[r].entries[key := v])]
    {
      objs := objs[r := objs[r].(entries := objs[r].entries[key := v])];
    }

    method ListStart(self: nat, name: string) returns (child: Option<(string, nat)>)
      requires self < |objs| && objs[self].ListObj?
      modifies this
      ensures (Current(), child) == StartInList(cfg, old(Current()), self, name)
    {
      var isList := MatchesListMarker(name);
      if isList {
        var l := Allocate(ListObj([], map[], Some(name)));
        objs := objs[self := SetAttr(objs[self], cfg.getName(name), Ref(l))];
        UpdateBefore(old(objs), self, objs[self], objs[l]);
        return Some((name, l));
      }
      if name in cfg.itemMarkers {
        var e := Allocate(ElementObj(map[], Some(self), |stacks|));
        stacks := stacks + [[]];
        Append(self, Ref(e));
        UpdateBefore(old(objs), self, objs[self], objs[e]);
        return Some((name, e));
      } else {
        return None;
      }
    }

    method Append(r: nat, v: Value)
      requires r < |objs| && objs[r].ListObj?
      modifies this`objs
      ensures objs == old(objs)[r := old(objs)[r].(items := old(objs)[r].items + [v])]
    {
      objs := objs[r := objs[r].(items := objs[r].items + [v])];
    }

    method ElementEnd(self: nat, name: string, text: string)
      requires IsElement(self)
      requires objs[self].parent.Some? ==> objs[self].parent.value < |objs|
      modifies this
      ensures Current() == EndNode(cfg, old(Current()), self, name, text)
    {
      var stack, parent := objs[self].stack, objs[self].parent;
      if |stacks[stack]| > 0 {
        stacks := stacks[stack := stacks[stack][..|stacks[stack]| - 1]];
      }
      var value := Strip(text);
      if value != "" && parent.Some? {
        if objs[parent.value].ElementObj? {
          PutEntry(parent.value, cfg.getName(name), Str(value));
        } else {
          Append(parent.value, Str(value));
        }
      }
    }

    method ListEnd(self: nat, name: string, text: string)
      requires self < |objs| && objs[self].ListObj?
      modifies this`objs
      ensures Current() == EndNode(cfg, old(Current()), self, name, text)
    {
      if objs[self].elementName != Some(name) {
        objs := objs[self := SetAttr(objs[self], cfg.getName(name), Str(text))];
        return;
      }
      var items := objs[self].items;
      if |items| > 0 {
        var empty := EmptyOnes(items);
        for i := 0 to |empty|
          invariant objs == old(objs) && |EmptyItems(objs, items)| == |empty| - i
          invariant WithoutEmpty(objs, items) == WithoutEmpty(objs, objs[self].items)
        {
          RemoveFirstKeeps(objs, items);
          items := RemoveFirst(objs, items);
        }
        NoneLeft(objs, items);
      }
      objs := objs[self := objs[self].(items := items)];
    }

    // The list built by the first loop of ListElement.endElement.
    method EmptyOnes(items: seq<Value>) returns (empty: seq<Value>)
      ensures empty == EmptyItems(objs, items)
      ensures forall v :: v in empty <==> v in items && IsEmptyElement(objs, v)
    {
      empty := [];
      for i := 0 to |items|
        invariant empty + EmptyItems(objs, items[i..]) == EmptyItems(objs, items)
        invariant forall v :: v in empty <==> v in items[..i] && IsEmptyElement(objs, v)
      {
        assert items[i..][1..] == items[i + 1..];
        if IsEmptyElement(objs, items[i]) {
          empty := empty + [items[i]];
        }
      }
    }
  }

  // Elements refer to parents and name stacks that exist.
  ghost predicate Closed(h: Heap) {
    forall i :: 0 <= i < |h.objs| && h.objs[i].ElementObj? ==>
      h.objs[i].stack < |h.stacks| && (h.objs[i].parent.Some? ==> h.objs[i].parent.value < |h.objs|)
  }

  lemma StartClosed(cfg: Config, h: Heap, r: nat, name: string)
    requires Closed(h) && r < |h.objs|
    ensures var (h', child) := StartNode(cfg, h, r, name);
      Closed(h') && |h.objs| <= |h'.objs| && (child.Some? ==> child.value.1 < |h'.objs|)
  {}

  lemma EndClosed(cfg: Config, h: Heap, r: nat, name: string, text: string)
    requires Closed(h) && r < |h.objs|
    ensures Closed(EndNode(cfg, h, r, name, text)) && |EndNode(cfg, h, r, name, text).objs| == |h.objs|
  {}

  // The handler: the nodes, the stack of those that are open, and the text.
  class Handler {
    const tree: Nodes
    var nodes: seq<(string, nat)>
    var currentText: string

    ghost function Current(): State<Heap, nat>
      reads this, tree
    {
      Running(tree.Current(), nodes, currentText)
    }

    ghost predicate Valid()
      reads this, tree
    {
      Closed(tree.Current()) && forall i :: 0 <= i < |nodes| ==> nodes[i].1 < |tree.objs|
    }

    constructor (cfg: Config)
      ensures Valid() && fresh(tree) && tree.cfg == cfg
      ensures Current() == Running(Fresh([]), [("root", 0)], "")
    {
      tree := new Nodes(cfg);
      nodes, currentText := [("root", 0)], "";
    }

    // One event. An empty stack raises IndexError, except on text.
    method Handle(e: Event) returns (ok: bool)
      requires Valid()
      modifies this, tree
      ensures ok <==> Step(Handlers(tree.cfg), old(Current()), e).Running?
      ensures ok ==> Valid() && Current() == Step(Handlers(tree.cfg), old(Current()), e)
    {
      if e.Chars? {
        currentText := currentText + e.text;
        return true;
      }
      if nodes == [] {
        return false;
      }
      var (top, node) := nodes[|nodes| - 1];
      if e.Start? {
        StartClosed(tree.cfg, tree.Current(), node, e.name);
        var child := tree.StartElement(node, e.name);
        if child.Some? {
          nodes := nodes + [child.value];
        }
      } else {
        EndClosed(tree.cfg, tree.Current(), node, e.name, currentText);
        tree.EndElement(node, e.name, currentText);
        if top == e.name {
          nodes := nodes[..|nodes| - 1];
        }
      }
      currentText := "";
      return true;
    }
  }

  // A parse into these nodes never finds the stack empty, and what the root
  // then holds is what the document means.
  method Parse(cfg: Config, document: seq<Xml>) returns (handler: Handler)
    ensures handler.Valid() && handler.nodes == [("root", 0)] && |handler.tree.objs| > 0
    ensures Reify(handler.tree.objs, 0) == Content(cfg, document, DictView(map[]))
  {
    handler := new Handler(cfg);
    var events := Events(document);
    ParseMeaning(cfg, document, []);
    assert events[0..] == events;
    for i := 0 to |events|
      invariant handler.Valid() && fresh(handler) && fresh(handler.tree) && handler.tree.cfg == cfg
      invariant Run(Handlers(cfg), Running(Fresh([]), [("root", 0)], ""), events)
        == Run(Handlers(cfg), handler.Current(), events[i..])
    {
      assert events[i..][0] == events[i] && events[i..][1..] == events[i + 1..];
      ghost var s := handler.Current();
      var ok := handler.Handle(events[i]);
      if !ok {
        Crashed<Heap, nat>(Handlers(cfg), events[i + 1..]);
        assert false;
      }
    }
  }

  lemma UpdateBefore<T>(s: seq<T>, i: nat, x: T, last: T)
    requires i < |s|
    ensures (s + [last])[i := x] == s[i := x] + [last]
  {}

  // The items that are Elements with no entries, in order.
  function EmptyItems(objs: seq<Object>, items: seq<Value>): seq<Value> {
    if items == [] then []
    else (if IsEmptyElement(objs, items[0]) then [items[0]] else []) + EmptyItems(objs, items[1..])
  }

  // self.remove(e) for an empty Element e: dicts are compared by content, so
  // the first empty Element goes.
  function RemoveFirst(objs: seq<Object>, items: seq<Value>): seq<Value>
    requires EmptyItems(objs, items) != []
  {
    if IsEmptyElement(objs, items[0]) then items[1..] else [items[0]] + RemoveFirst(objs, items[1..])
  }

  lemma {:induction false} RemoveFirstKeeps(objs: seq<Object>, items: seq<Value>)
    requires EmptyItems(objs, items) != []
    ensures EmptyItems(objs, RemoveFirst(objs, items)) == EmptyItems(objs, items)[1..]
    ensures WithoutEmpty(objs, RemoveFirst(objs, items)) == WithoutEmpty(objs, items)
  {
    if !IsEmptyElement(objs, items[0]) {
      RemoveFirstKeeps(objs, items[1..]);
    }
  }

  lemma {:induction false} NoneLeft(objs: seq<Object>, items: seq<Value>)
    requires EmptyItems(objs, items) == []
    ensures WithoutEmpty(objs, items) == items
  {
    if items == [] {
    } else {
      NoneLeft(objs, items[1..]);
    }
  }
}
