/**
  boto.jsonresponse: the Element and ListElement nodes that turn an XML
  response into nested dicts and lists, driven by the SAX stack machine.

  Objects refer to each other (a child writes into its parent, a chain of
  Elements shares one name stack), so the heap is explicit: an object is an
  index into `objs`, a shared name stack is an index into `stacks`.
*/
module JsonResponse {
  import opened Wrappers
  import opened SaxHandler
  import opened Text

  datatype Value = Str(s: string) | Ref(ref: nat)

  datatype Object =
    | ElementObj(entries: map<string, Value>, parent: Option<nat>, stack: nat)
    | ListObj(items: seq<Value>, attrs: map<string, Value>, elementName: Option<string>)

  datatype Heap = Heap(objs: seq<Object>, stacks: seq<seq<string>>)

  // list_marker, item_marker and get_name, which all nodes of a parse share.
  datatype Config = Config(listMarkers: seq<string>, itemMarkers: seq<string>, getName: string -> string)

  predicate IsListName(cfg: Config, name: string) {
    exists i :: 0 <= i < |cfg.listMarkers| && EndsWith(name, cfg.listMarkers[i])
  }

  // setattr on a ListElement; `element_name` is also the node's own field.
  function SetAttr(o: Object, key: string, v: Value): Object
    requires o.ListObj?
  {
    o.(attrs := o.attrs[key := v],
       elementName := if key != "element_name" then o.elementName else if v.Str? then Some(v.s) else None)
  }

  // ---- the event handlers ----

  function StartNode(cfg: Config, h: Heap, r: nat, name: string): (Heap, Option<(string, nat)>) {
    if r >= |h.objs| then (h, None)
    else match h.objs[r]
      case ElementObj(_, _, _) => StartInElement(cfg, h, r, name)
      case ListObj(_, _, _) => StartInList(cfg, h, r, name)
  }

  function StartInElement(cfg: Config, h: Heap, r: nat, name: string): (Heap, Option<(string, nat)>)
    requires r < |h.objs| && h.objs[r].ElementObj?
  {
    var o, n := h.objs[r], |h.objs|;
    if o.stack >= |h.stacks| then (h, None)
    else
      var names := h.stacks[o.stack] + [name];
      var stacks := h.stacks[o.stack := names];
      if IsListName(cfg, name) then
        var o' := o.(entries := o.entries[cfg.getName(name) := Ref(n)]);
        (Heap(h.objs[r := o'] + [ListObj([], map[], Some(name))], stacks), Some((name, n)))
      else
        // The name was just pushed, so the source's test for an empty stack fails.
        var elementName := names[|names| - 1];
        var o' := o.(entries := o.entries[cfg.getName(elementName) := Ref(n)]);
        (Heap(h.objs[r := o'] + [ElementObj(map[], Some(r), o.stack)], stacks), Some((elementName, n)))
  }

  function StartInList(cfg: Config, h: Heap, r: nat, name: string): (Heap, Option<(string, nat)>)
    requires r < |h.objs| && h.objs[r].ListObj?
  {
    var o, n := h.objs[r], |h.objs|;
    if IsListName(cfg, name) then
      var o' := SetAttr(o, cfg.getName(name), Ref(n));
      (h.(objs := h.objs[r := o'] + [ListObj([], map[], Some(name))]), Some((name, n)))
    else if name in cfg.itemMarkers then
      var o' := o.(items := o.items + [Ref(n)]);
      (Heap(h.objs[r := o'] + [ElementObj(map[], Some(r), |h.stacks|)], h.stacks + [[]]), Some((name, n)))
    else (h, None)
  }

  function EndNode(cfg: Config, h: Heap, r: nat, name: string, text: string): Heap {
    if r >= |h.objs| then h
    else match h.objs[r]
      case ElementObj(_, parent, stack) => PutInParent(cfg, Popped(h, stack), parent, name, Strip(text))
      case ListObj(items, _, elementName) =>
        if elementName == Some(name) then
          h.(objs := h.objs[r := h.objs[r].(items := WithoutEmpty(h.objs, items))])
        else h.(objs := h.objs[r := SetAttr(h.objs[r], cfg.getName(name), Str(text))])
  }

  function Popped(h: Heap, stack: nat): Heap {
    if stack < |h.stacks| && |h.stacks[stack]| > 0
    then h.(stacks := h.stacks[stack := h.stacks[stack][..|h.stacks[stack]| - 1]])
    else h
  }

  function PutInParent(cfg: Config, h: Heap, parent: Option<nat>, name: string, value: string): Heap {
    if value == "" || parent.None? || parent.value >= |h.objs| then h
    else
      var p := h.objs[parent.value];
      var p' := match p
        case ElementObj(entries, _, _) => p.(entries := entries[cfg.getName(name) := Str(value)])
        case ListObj(items, _, _) => p.(items := items + [Str(value)]);
      h.(objs := h.objs[parent.value := p'])
  }

  // Removing every empty Element; equality on dicts makes list.remove(e) take
  // the first empty one, which comes to the same.
  function WithoutEmpty(objs: seq<Object>, items: seq<Value>): seq<Value> {
    if items == [] then []
    else (if IsEmptyElement(objs, items[0]) then [] else [items[0]]) + WithoutEmpty(objs, items[1..])
  }

  predicate IsEmptyElement(objs: seq<Object>, v: Value) {
    v.Ref? && v.ref < |objs| && objs[v.ref].ElementObj? && objs[v.ref].entries == map[]
  }

  // Neither Element nor ListElement has an endNode.
  function Handlers(cfg: Config): Behaviour<Heap, nat> {
    Behaviour(
      (h: Heap, r: nat, name: string) => StartNode(cfg, h, r, name),
      (h: Heap, r: nat, name: string, text: string) => EndNode(cfg, h, r, name, text),
      (h: Heap, r: nat) => h)
  }

  // A parse starts from a bare Element, whatever its name stack holds.
  function Fresh(names: seq<string>): Heap {
    Heap([ElementObj(map[], None, 0)], [names])
  }

  // ---- what a document means ----

  datatype Json =
    | JStr(s: string)
    | JDict(entries: map<string, Json>)
    | JList(items: seq<Json>, attrs: map<string, Json>)

  // A node under construction.
  datatype View =
    | DictView(d: map<string, Json>)
    | ListView(items: seq<Json>, attrs: map<string, Json>, elementName: Option<string>)

  function AsJson(v: View): Json {
    match v
    case DictView(d) => JDict(d)
    case ListView(items, attrs, _) => JList(items, attrs)
  }

  // The text after the last child element.
  function Tail(kids: seq<Xml>, text: string): string {
    if kids == [] then text
    else Tail(kids[1..], if kids[0].Text? then text + kids[0].text else "")
  }

  function WithAttr(v: View, key: string, j: Json): View
    requires v.ListView?
  {
    v.(attrs := v.attrs[key := j],
       elementName := if key != "element_name" then v.elementName else if j.JStr? then Some(j.s) else None)
  }

  function NonEmpty(items: seq<Json>): seq<Json> {
    if items == [] then []
    else (if items[0] == JDict(map[]) then [] else [items[0]]) + NonEmpty(items[1..])
  }

  // The end of an element seen by a list: its own end drops the empty
  // placeholders, the end of a declined child becomes an attribute.
  function Close(cfg: Config, name: string, text: string, v: View): View
    requires v.ListView?
  {
    if v.elementName == Some(name) then v.(items := NonEmpty(v.items))
    else WithAttr(v, cfg.getName(name), JStr(text))
  }

  function Content(cfg: Config, kids: seq<Xml>, v: View): (w: View)
    ensures w.ListView? <==> v.ListView?
    decreases kids, 0
  {
    if kids == [] then v
    else match kids[0]
      case Text(_) => Content(cfg, kids[1..], v)
      case Elem(name, inner) => Content(cfg, kids[1..], Child(cfg, name, inner, v))
  }

  function Child(cfg: Config, name: string, inner: seq<Xml>, v: View): (w: View)
    ensures w.ListView? <==> v.ListView?
    decreases inner, 2
  {
    var key, text := cfg.getName(name), Strip(Tail(inner, ""));
    if IsListName(cfg, name) then
      var l := AsJson(ListMeaning(cfg, name, inner));
      if v.DictView? then DictView(v.d[key := l]) else WithAttr(v, key, l)
    else if v.DictView? then
      DictView(v.d[key := if text != "" then JStr(text) else AsJson(Content(cfg, inner, DictView(map[])))])
    else if name in cfg.itemMarkers then
      v.(items := v.items + [AsJson(Content(cfg, inner, DictView(map[])))] + if text != "" then [JStr(text)] else [])
    else Close(cfg, name, Tail(inner, ""), Content(cfg, inner, v))
  }

  function ListMeaning(cfg: Config, name: string, inner: seq<Xml>): View
    decreases inner, 1
  {
    Close(cfg, name, Tail(inner, ""), Content(cfg, inner, ListView([], map[], Some(name))))
  }

  // ---- reading values back out of the heap ----

  // References point to later objects, so the object graph is a forest.
  ghost predicate ValueOk(v: Value, i: nat, n: nat) {
    v.Ref? ==> i < v.ref < n
  }

  ghost predicate ObjectOk(o: Object, i: nat, h: Heap) {
    match o
    case ElementObj(entries, parent, stack) =>
      && EntriesOk(entries, i, |h.objs|)
      && stack < |h.stacks|
    case ListObj(items, attrs, _) =>
      && ItemsOk(items, i, |h.objs|)
      && EntriesOk(attrs, i, |h.objs|)
  }

  ghost predicate Valid(h: Heap) {
    forall i :: 0 <= i < |h.objs| ==> ObjectOk(h.objs[i], i, h)
  }

  ghost function Reify(objs: seq<Object>, i: nat): (v: View)
    requires i < |objs|
    ensures v.ListView? <==> objs[i].ListObj?
    decreases |objs| - i, 2
  {
    match objs[i]
    case ElementObj(entries, _, _) => DictView(ReifyEntries(objs, i, entries))
    case ListObj(items, attrs, elementName) =>
      ListView(ReifyItems(objs, i, items), ReifyEntries(objs, i, attrs), elementName)
  }

  ghost function ReifyEntries(objs: seq<Object>, i: nat, m: map<string, Value>): map<string, Json>
    requires i < |objs|
    decreases |objs| - i, 1
  {
    map k | k in m :: ReifyValue(objs, i, m[k])
  }

  ghost function ReifyItems(objs: seq<Object>, i: nat, items: seq<Value>): seq<Json>
    requires i < |objs|
    decreases |objs| - i, 1, items
  {
    if items == [] then [] else [ReifyValue(objs, i, items[0])] + ReifyItems(objs, i, items[1..])
  }

  ghost function ReifyValue(objs: seq<Object>, i: nat, v: Value): Json
    requires i < |objs|
    decreases |objs| - i, 0
  {
    match v
    case Str(s) => JStr(s)
    case Ref(j) => if i < j < |objs| then AsJson(Reify(objs, j)) else JStr("")
  }

  // ---- framing ----

  ghost predicate ItemsOk(items: seq<Value>, i: nat, n: nat) {
    forall j :: 0 <= j < |items| ==> ValueOk(items[j], i, n)
  }

  ghost predicate EntriesOk(m: map<string, Value>, i: nat, n: nat) {
    forall k :: k in m ==> ValueOk(m[k], i, n)
  }

  // The objects after r that h has are still there.
  ghost predicate Agrees(h: Heap, objs': seq<Object>, r: nat) {
    && r < |h.objs| <= |objs'|
    && forall j :: r < j < |h.objs| ==> objs'[j] == h.objs[j]
  }

  // Nothing reachable from i changed: its meaning is the same.
  lemma {:induction false} ReifyFrame(h: Heap, objs': seq<Object>, i: nat)
    requires Valid(h) && Agrees(h, objs', i) && objs'[i] == h.objs[i]
    ensures Reify(objs', i) == Reify(h.objs, i)
    decreases |h.objs| - i, 2
  {
    assert ObjectOk(h.objs[i], i, h);
    match h.objs[i]
    case ElementObj(entries, _, _) => EntriesFrame(h, objs', i, entries);
    case ListObj(items, attrs, _) => ItemsFrame(h, objs', i, items); EntriesFrame(h, objs', i, attrs);
  }

  lemma {:induction false} ValueFrame(h: Heap, objs': seq<Object>, i: nat, v: Value)
    requires Valid(h) && Agrees(h, objs', i) && ValueOk(v, i, |h.objs|)
    ensures ReifyValue(objs', i, v) == ReifyValue(h.objs, i, v)
    decreases |h.objs| - i, 0
  {
    if v.Ref? {
      ReifyFrame(h, objs', v.ref);
    }
  }

  lemma {:induction false} EntriesFrame(h: Heap, objs': seq<Object>, i: nat, m: map<string, Value>)
    requires Valid(h) && Agrees(h, objs', i) && EntriesOk(m, i, |h.objs|)
    ensures ReifyEntries(objs', i, m) == ReifyEntries(h.objs, i, m)
    decreases |h.objs| - i, 1
  {
    forall k | k in m ensures ReifyValue(objs', i, m[k]) == ReifyValue(h.objs, i, m[k]) {
      ValueFrame(h, objs', i, m[k]);
    }
  }

  lemma {:induction false} ItemsFrame(h: Heap, objs': seq<Object>, i: nat, items: seq<Value>)
    requires Valid(h) && Agrees(h, objs', i) && ItemsOk(items, i, |h.objs|)
    ensures ReifyItems(objs', i, items) == ReifyItems(h.objs, i, items)
    decreases |h.objs| - i, 1, items
  {
    if items == [] {
    } else {
      ValueFrame(h, objs', i, items[0]);
      ItemsFrame(h, objs', i, items[1..]);
    }
  }

  lemma {:induction false} ItemsAppend(objs: seq<Object>, i: nat, items: seq<Value>, more: seq<Value>)
    requires i < |objs|
    ensures ReifyItems(objs, i, items + more) == ReifyItems(objs, i, items) + ReifyItems(objs, i, more)
  {
    if items == [] {
      assert items + more == more;
    } else {
      assert (items + more)[1..] == items[1..] + more;
      ItemsAppend(objs, i, items[1..], more);
    }
  }

  // ---- what one update of r means ----

  lemma EntryPut(h: Heap, objs': seq<Object>, r: nat, key: string, v: Value)
    requires Valid(h) && Agrees(h, objs', r) && h.objs[r].ElementObj?
    requires objs'[r] == h.objs[r].(entries := h.objs[r].entries[key := v])
    ensures Reify(objs', r) == DictView(Reify(h.objs, r).d[key := ReifyValue(objs', r, v)])
  {
    assert ObjectOk(h.objs[r], r, h);
    EntriesFrame(h, objs', r, h.objs[r].entries);
  }

  lemma AttrPut(h: Heap, objs': seq<Object>, r: nat, key: string, v: Value)
    requires Valid(h) && Agrees(h, objs', r) && h.objs[r].ListObj? && ValueOk(v, r, |objs'|)
    requires objs'[r] == SetAttr(h.objs[r], key, v)
    ensures Reify(objs', r) == WithAttr(Reify(h.objs, r), key, ReifyValue(objs', r, v))
  {
    assert ObjectOk(h.objs[r], r, h);
    EntriesFrame(h, objs', r, h.objs[r].attrs);
    ItemsFrame(h, objs', r, h.objs[r].items);
  }

  lemma ItemsPut(h: Heap, objs': seq<Object>, r: nat, more: seq<Value>)
    requires Valid(h) && Agrees(h, objs', r) && h.objs[r].ListObj?
    requires objs'[r] == h.objs[r].(items := h.objs[r].items + more)
    ensures var v := Reify(h.objs, r);
      v.ListView? && Reify(objs', r) == ListView(v.items + ReifyItems(objs', r, more), v.attrs, v.elementName)
  {
    assert ObjectOk(h.objs[r], r, h);
    EntriesFrame(h, objs', r, h.objs[r].attrs);
    ItemsFrame(h, objs', r, h.objs[r].items);
    ItemsAppend(objs', r, h.objs[r].items, more);
  }

  // Dropping the empty Elements of a list drops exactly its empty dicts.
  lemma {:induction false} WithoutEmptyMeaning(h: Heap, r: nat, items: seq<Value>)
    requires Valid(h) && r < |h.objs| && ItemsOk(items, r, |h.objs|)
    ensures ReifyItems(h.objs, r, WithoutEmpty(h.objs, items)) == NonEmpty(ReifyItems(h.objs, r, items))
    ensures ItemsOk(WithoutEmpty(h.objs, items), r, |h.objs|)
  {
    if items == [] {
    } else {
      WithoutEmptyMeaning(h, r, items[1..]);
      var v := items[0];
      assert ValueOk(v, r, |h.objs|);
      EmptyMeaning(h, r, v);
      assert ReifyItems(h.objs, r, items)[1..] == ReifyItems(h.objs, r, items[1..]);
      if !IsEmptyElement(h.objs, v) {
        assert WithoutEmpty(h.objs, items) == [v] + WithoutEmpty(h.objs, items[1..]);
        assert WithoutEmpty(h.objs, items)[1..] == WithoutEmpty(h.objs, items[1..]);
      } else {
        assert WithoutEmpty(h.objs, items) == WithoutEmpty(h.objs, items[1..]);
      }
    }
  }

  lemma EmptyMeaning(h: Heap, r: nat, v: Value)
    requires Valid(h) && r < |h.objs| && ValueOk(v, r, |h.objs|)
    ensures IsEmptyElement(h.objs, v) <==> ReifyValue(h.objs, r, v) == JDict(map[])
  {
    if v.Ref? && h.objs[v.ref].ElementObj? {
      var m := h.objs[v.ref].entries;
      assert ReifyEntries(h.objs, v.ref, m).Keys == m.Keys;
      assert Reify(h.objs, v.ref) == DictView(ReifyEntries(h.objs, v.ref, m));
      assert m == map[] <==> m.Keys == {};
    }
  }

  // h' extends h, and of the old objects only r changed, keeping its kind.
  ghost predicate Grows(h: Heap, h': Heap, r: nat)
    requires r < |h.objs|
  {
    && Valid(h')
    && |h.objs| <= |h'.objs| && |h.stacks| <= |h'.stacks|
    && (forall i :: 0 <= i < |h.objs| && i != r ==> h'.objs[i] == h.objs[i])
    && SameKind(h.objs[r], h'.objs[r])
  }

  predicate SameKind(o: Object, o': Object) {
    if o.ElementObj? then o'.ElementObj? && o'.parent == o.parent && o'.stack == o.stack else o'.ListObj?
  }

  // ---- the handlers compute the meaning ----

  lemma CloseMeaning(cfg: Config, h: Heap, r: nat, name: string, text: string)
    requires Valid(h) && r < |h.objs| && h.objs[r].ListObj?
    ensures Grows(h, EndNode(cfg, h, r, name, text), r)
    ensures Reify(EndNode(cfg, h, r, name, text).objs, r) == Close(cfg, name, text, Reify(h.objs, r))
  {
    var o, h' := h.objs[r], EndNode(cfg, h, r, name, text);
    assert ObjectOk(o, r, h);
    WithoutEmptyMeaning(h, r, o.items);
    assert ObjectOk(h'.objs[r], r, h');
    ValidUpdate(h, h', r);
    if o.elementName == Some(name) {
      ItemsFrame(h, h'.objs, r, h'.objs[r].items);
      EntriesFrame(h, h'.objs, r, o.attrs);
    } else {
      AttrPut(h, h'.objs, r, cfg.getName(name), Str(text));
    }
  }

  lemma ValidUpdate(h: Heap, h': Heap, r: nat)
    requires Valid(h) && r < |h.objs| <= |h'.objs| && |h.stacks| <= |h'.stacks|
    requires forall i :: 0 <= i < |h.objs| && i != r ==> h'.objs[i] == h.objs[i]
    requires ObjectOk(h'.objs[r], r, h')
    requires forall i :: |h.objs| <= i < |h'.objs| ==> ObjectOk(h'.objs[i], i, h')
    ensures Valid(h')
  {
    forall i | 0 <= i < |h'.objs| ensures ObjectOk(h'.objs[i], i, h') {
      if i < |h.objs| && i != r {
        assert ObjectOk(h.objs[i], i, h);
      }
    }
  }

  // Accepting a child adds one object and changes only the parent.
  lemma StartMeaning(cfg: Config, h: Heap, r: nat, name: string)
    requires Valid(h) && r < |h.objs|
    ensures var (h1, child) := StartNode(cfg, h, r, name); var n := |h.objs|;
      && Grows(h, h1, r)
      && (child.None? <==> h.objs[r].ListObj? && !IsListName(cfg, name) && name !in cfg.itemMarkers)
      && (child.None? ==> h1 == h)
      && (child.Some? ==> child.value == (name, n) && |h1.objs| == n + 1)
      && (child.Some? ==> Reify(h1.objs, n) == if IsListName(cfg, name) then ListView([], map[], Some(name)) else DictView(map[]))
      && (child.Some? && !IsListName(cfg, name) ==> h1.objs[n].parent == Some(r))
      && (child.Some? ==> h1.objs[r] == Linked(cfg, h.objs[r], name, n))
  {
    assert ObjectOk(h.objs[r], r, h);
    var (h1, child) := StartNode(cfg, h, r, name);
    if child.Some? {
      assert ObjectOk(h1.objs[r], r, h1);
      assert ObjectOk(h1.objs[|h.objs|], |h.objs|, h1);
      ValidUpdate(h, h1, r);
    }
  }

  // The parent with a reference to its new child n.
  function Linked(cfg: Config, o: Object, name: string, n: nat): Object {
    if o.ElementObj? then o.(entries := o.entries[cfg.getName(name) := Ref(n)])
    else if IsListName(cfg, name) then SetAttr(o, cfg.getName(name), Ref(n))
    else o.(items := o.items + [Ref(n)])
  }

  // The end of an Element leaves its non-blank text with its parent.
  lemma EndMeaning(cfg: Config, h: Heap, n: nat, r: nat, name: string, text: string)
    requires Valid(h) && r < n < |h.objs| && h.objs[n].ElementObj? && h.objs[n].parent == Some(r)
    ensures var h' := EndNode(cfg, h, n, name, text);
      && Valid(h') && |h'.objs| == |h.objs| && |h'.stacks| == |h.stacks|
      && (forall i :: 0 <= i < |h.objs| && i != r ==> h'.objs[i] == h.objs[i])
      && h'.objs[r] == if Strip(text) == "" then h.objs[r] else WithText(cfg, h.objs[r], name, Strip(text))
  {
    assert ObjectOk(h.objs[r], r, h);
    var h' := EndNode(cfg, h, n, name, text);
    assert ObjectOk(h'.objs[r], r, h');
    ValidUpdate(h, h', r);
  }

  function WithText(cfg: Config, o: Object, name: string, value: string): Object {
    if o.ElementObj? then o.(entries := o.entries[cfg.getName(name) := Str(value)])
    else o.(items := o.items + [Str(value)])
  }

  lemma {:induction false} WalkMeaning(cfg: Config, h: Heap, r: nat, kids: seq<Xml>, text: string)
    requires Valid(h) && r < |h.objs|
    ensures var (h', tail) := Walk(Handlers(cfg), h, r, kids, text);
      && Grows(h, h', r)
      && Reify(h'.objs, r) == Content(cfg, kids, Reify(h.objs, r))
      && tail == Tail(kids, text)
    decreases kids, 0
  {
    if kids == [] {
    } else {
      match kids[0]
      case Text(t) => WalkMeaning(cfg, h, r, kids[1..], text + t);
      case Elem(name, inner) =>
        ElemMeaning(cfg, h, r, name, inner);
        WalkMeaning(cfg, WalkElem(Handlers(cfg), h, r, name, inner), r, kids[1..], "");
    }
  }

  lemma {:induction false} ElemMeaning(cfg: Config, h: Heap, r: nat, name: string, inner: seq<Xml>)
    requires Valid(h) && r < |h.objs|
    ensures var h' := WalkElem(Handlers(cfg), h, r, name, inner);
      && Grows(h, h', r)
      && Reify(h'.objs, r) == Child(cfg, name, inner, Reify(h.objs, r))
    decreases inner, 1
  {
    StartMeaning(cfg, h, r, name);
    var (h1, child) := StartNode(cfg, h, r, name);
    if child.None? {
      WalkMeaning(cfg, h, r, inner, "");
      var (h2, tail) := Walk(Handlers(cfg), h, r, inner, "");
      CloseMeaning(cfg, h2, r, name, tail);
    } else {
      var n := |h.objs|;
      WalkMeaning(cfg, h1, n, inner, "");
      var (h2, tail) := Walk(Handlers(cfg), h1, n, inner, "");
      if IsListName(cfg, name) {
        ListChildMeaning(cfg, h, h1, h2, r, name, inner);
      } else {
        ElementChildMeaning(cfg, h, h1, h2, r, name, inner);
      }
    }
  }

  lemma ListChildMeaning(cfg: Config, h: Heap, h1: Heap, h2: Heap, r: nat, name: string, inner: seq<Xml>)
    requires Valid(h) && r < |h.objs| && Grows(h, h1, r) && |h1.objs| == |h.objs| + 1
    requires IsListName(cfg, name) && h1.objs[r] == Linked(cfg, h.objs[r], name, |h.objs|)
    requires Grows(h1, h2, |h.objs|)
    requires Reify(h2.objs, |h.objs|) == Content(cfg, inner, ListView([], map[], Some(name)))
    ensures var h3 := EndNode(cfg, h2, |h.objs|, name, Tail(inner, ""));
      Grows(h, h3, r) && Reify(h3.objs, r) == Child(cfg, name, inner, Reify(h.objs, r))
  {
    var n := |h.objs|;
    var h3 := EndNode(cfg, h2, n, name, Tail(inner, ""));
    CloseMeaning(cfg, h2, n, name, Tail(inner, ""));
    assert h3.objs[r] == h1.objs[r];
    if h.objs[r].ElementObj? {
      EntryPut(h, h3.objs, r, cfg.getName(name), Ref(n));
    } else {
      AttrPut(h, h3.objs, r, cfg.getName(name), Ref(n));
    }
  }

  lemma ElementChildMeaning(cfg: Config, h: Heap, h1: Heap, h2: Heap, r: nat, name: string, inner: seq<Xml>)
    requires Valid(h) && r < |h.objs| && Grows(h, h1, r) && |h1.objs| == |h.objs| + 1
    requires !IsListName(cfg, name) && (h.objs[r].ElementObj? || name in cfg.itemMarkers)
    requires h1.objs[r] == Linked(cfg, h.objs[r], name, |h.objs|)
    requires h1.objs[|h.objs|].ElementObj? && h1.objs[|h.objs|].parent == Some(r)
    requires Grows(h1, h2, |h.objs|)
    requires Reify(h2.objs, |h.objs|) == Content(cfg, inner, DictView(map[]))
    ensures var h3 := EndNode(cfg, h2, |h.objs|, name, Tail(inner, ""));
      Grows(h, h3, r) && Reify(h3.objs, r) == Child(cfg, name, inner, Reify(h.objs, r))
  {
    var n, text := |h.objs|, Strip(Tail(inner, ""));
    var h3 := EndNode(cfg, h2, n, name, Tail(inner, ""));
    EndMeaning(cfg, h2, n, r, name, Tail(inner, ""));
    ReifyFrame(h2, h3.objs, n);
    var o, key := h.objs[r], cfg.getName(name);
    if o.ElementObj? {
      assert o.entries[key := Ref(n)][key := Str(text)] == o.entries[key := Str(text)];
      EntryPut(h, h3.objs, r, key, if text != "" then Str(text) else Ref(n));
    } else {
      var last := if text != "" then [Str(text)] else [];
      assert o.items + [Ref(n)] + last == o.items + ([Ref(n)] + last);
      MemberPut(h, h3, r, n, text);
    }
  }

  // A list that gained a member Element, and its text if it is not blank.
  lemma MemberPut(h: Heap, h3: Heap, r: nat, n: nat, text: string)
    requires Valid(h) && Agrees(h, h3.objs, r) && h.objs[r].ListObj? && r < n < |h3.objs|
    requires h3.objs[r] ==
      h.objs[r].(items := h.objs[r].items + ([Ref(n)] + if text != "" then [Str(text)] else []))
    ensures var v := Reify(h.objs, r); v.ListView? && Reify(h3.objs, r) == ListView(
      v.items + [AsJson(Reify(h3.objs, n))] + (if text != "" then [JStr(text)] else []), v.attrs, v.elementName)
  {
    var last := if text != "" then [Str(text)] else [];
    ItemsPut(h, h3.objs, r, [Ref(n)] + last);
    assert ([Ref(n)] + last)[1..] == last;
    assert ReifyItems(h3.objs, r, last) == if text != "" then [JStr(text)] else [];
    var v := Reify(h.objs, r);
    assert v.items + ([AsJson(Reify(h3.objs, n))] + ReifyItems(h3.objs, r, last))
        == v.items + [AsJson(Reify(h3.objs, n))] + ReifyItems(h3.objs, r, last);
  }

  // ---- main results ----

  // A list never declines its own name, and Elements decline nothing.
  lemma {:induction false} AlwaysDisciplined(cfg: Config, h: Heap, top: string, r: nat, kids: seq<Xml>)
    requires Valid(h) && r < |h.objs| && (h.objs[r].ListObj? ==> IsListName(cfg, top))
    ensures Disciplined(Handlers(cfg), h, top, r, kids)
    decreases kids, 0
  {
    if kids == [] {
    } else {
      match kids[0]
      case Text(_) => AlwaysDisciplined(cfg, h, top, r, kids[1..]);
      case Elem(name, inner) =>
        StartMeaning(cfg, h, r, name);
        var (h1, child) := StartNode(cfg, h, r, name);
        if child.Some? {
          AlwaysDisciplined(cfg, h1, name, child.value.1, inner);
        } else {
          AlwaysDisciplined(cfg, h, top, r, inner);
        }
        ElemMeaning(cfg, h, r, name, inner);
        AlwaysDisciplined(cfg, WalkElem(Handlers(cfg), h, r, name, inner), top, r, kids[1..]);
    }
  }

  // Running the handler on the events of any document builds exactly the
  // document's meaning and restores the node stack; what the shared name
  // stack held does not matter.
  lemma ParseMeaning(cfg: Config, document: seq<Xml>, names: seq<string>)
    ensures var s := Run(Handlers(cfg), Running(Fresh(names), [("root", 0)], ""), Events(document));
      && s.Running? && s.nodes == [("root", 0)] && |s.heap.objs| > 0
      && Reify(s.heap.objs, 0) == Content(cfg, document, DictView(map[]))
  {
    var h := Fresh(names);
    assert Valid(h);
    AlwaysDisciplined(cfg, h, "root", 0, document);
    ParseIsWalk(Handlers(cfg), h, 0, document);
    WalkMeaning(cfg, h, 0, document, "");
    assert Reify(h.objs, 0) == DictView(map[]);
  }

  // ok is false if some event raised IndexError.
  method ParseDocument(cfg: Config, document: seq<Xml>) returns (heap: Heap, ok: bool)
    ensures ok && |heap.objs| > 0
    ensures Reify(heap.objs, 0) == Content(cfg, document, DictView(map[]))
  {
    var handler := new XmlHandler<Heap, nat>(Handlers(cfg), Fresh([]), 0);
    ParseMeaning(cfg, document, []);
    ok := handler.Parse(Events(document));
    heap := handler.heap;
  }

  // The element_name a list is left with by the children it handles, if it
  // had `start` before them: a tag that is spelled as the field overwrites it.
  function LastName(cfg: Config, kids: seq<Xml>, start: Option<string>): Option<string>
    decreases kids, 0
  {
    if kids == [] then start
    else match kids[0]
      case Text(_) => LastName(cfg, kids[1..], start)
      case Elem(tag, inner) => LastName(cfg, kids[1..], NameAfter(cfg, tag, inner, start))
  }

  function NameAfter(cfg: Config, tag: string, inner: seq<Xml>, start: Option<string>): Option<string>
    decreases inner, 1
  {
    if IsListName(cfg, tag) then (if cfg.getName(tag) == "element_name" then None else start)
    else if tag in cfg.itemMarkers then start
    else
      var name := LastName(cfg, inner, start);
      if name != Some(tag) && cfg.getName(tag) == "element_name" then Some(Tail(inner, "")) else name
  }

  lemma {:induction false} ContentName(cfg: Config, kids: seq<Xml>, v: View)
    requires v.ListView?
    ensures Content(cfg, kids, v).elementName == LastName(cfg, kids, v.elementName)
    decreases kids, 0
  {
    if kids == [] {
    } else {
      match kids[0]
      case Text(_) => ContentName(cfg, kids[1..], v);
      case Elem(tag, inner) =>
        ChildName(cfg, tag, inner, v);
        ContentName(cfg, kids[1..], Child(cfg, tag, inner, v));
    }
  }

  lemma {:induction false} ChildName(cfg: Config, tag: string, inner: seq<Xml>, v: View)
    requires v.ListView?
    ensures Child(cfg, tag, inner, v).elementName == NameAfter(cfg, tag, inner, v.elementName)
    decreases inner, 1
  {
    if !IsListName(cfg, tag) && tag !in cfg.itemMarkers {
      ContentName(cfg, inner, v);
    }
  }

  // The end of a list removes its placeholder Elements exactly when the list
  // still has its own name by then, or has no placeholder to remove.
  lemma PlaceholdersRemovedIff(cfg: Config, name: string, inner: seq<Xml>)
    ensures var v := Content(cfg, inner, ListView([], map[], Some(name)));
      ListMeaning(cfg, name, inner).items == NonEmpty(v.items) <==>
        LastName(cfg, inner, Some(name)) == Some(name) || NonEmpty(v.items) == v.items
  {
    ContentName(cfg, inner, ListView([], map[], Some(name)));
  }

  // Some tag in the list's own scope is spelled as its element_name field.
  predicate Renames(cfg: Config, kids: seq<Xml>) {
    if kids == [] then false
    else
      || Renames(cfg, kids[1..])
      || (kids[0].Elem? && (IsListName(cfg, kids[0].name) || kids[0].name !in cfg.itemMarkers) &&
            (cfg.getName(kids[0].name) == "element_name" ||
              (!IsListName(cfg, kids[0].name) && Renames(cfg, kids[0].kids))))
  }

  lemma {:induction false} NameKept(cfg: Config, kids: seq<Xml>, start: Option<string>)
    requires !Renames(cfg, kids)
    ensures LastName(cfg, kids, start) == start
    decreases kids
  {
    if kids == [] {
    } else {
      if kids[0].Elem? && !IsListName(cfg, kids[0].name) && kids[0].name !in cfg.itemMarkers {
        NameKept(cfg, kids[0].kids, start);
      }
      NameKept(cfg, kids[1..], start);
    }
  }

  // In particular, unless a tag overwrites the element_name field, the end of
  // a list removes every placeholder Element and nothing else.
  lemma PlaceholdersRemoved(cfg: Config, name: string, inner: seq<Xml>)
    requires !Renames(cfg, inner)
    ensures var v := Content(cfg, inner, ListView([], map[], Some(name)));
      ListMeaning(cfg, name, inner) == v.(items := NonEmpty(v.items))
  {
    NameKept(cfg, inner, Some(name));
    ContentName(cfg, inner, ListView([], map[], Some(name)));
  }

  // A declined tag spelled element_name does overwrite it: the placeholder of
  // an empty member stays in the list.
  lemma ElementNameTagKeepsPlaceholder(cfg: Config, name: string, tag: string, text: string, item: string)
    requires IsListName(cfg, name)
    requires !IsListName(cfg, tag) && tag !in cfg.itemMarkers && cfg.getName(tag) == "element_name"
    requires !IsListName(cfg, item) && item in cfg.itemMarkers
    requires text != name
    ensures ListMeaning(cfg, name, [Elem(tag, [Text(text)]), Elem(item, [])]).items == [JDict(map[])]
  {
    var start := ListView([], map[], Some(name));
    var kids := [Elem(tag, [Text(text)]), Elem(item, [])];
    assert Tail([Text(text)], "") == text by { assert "" + text == text; }
    assert Content(cfg, [Text(text)], start) == start;
    var renamed := Child(cfg, tag, [Text(text)], start);
    assert renamed.elementName == Some(text) && renamed.items == [];
    var filled := Child(cfg, item, [], renamed);
    assert filled.elementName == Some(text) && filled.items == [JDict(map[])];
    assert kids[1..][1..] == [];
    assert Content(cfg, kids[1..], renamed) == filled;
    assert Content(cfg, kids, start) == filled;
  }

  // Members that hold just text.
  function TextMembers(members: seq<(string, string)>): seq<Xml> {
    if members == [] then [] else [Elem(members[0].0, [Text(members[0].1)])] + TextMembers(members[1..])
  }

  function Stripped(members: seq<(string, string)>): seq<Json> {
    if members == [] then [] else [JStr(Strip(members[0].1))] + Stripped(members[1..])
  }

  predicate AreTextMembers(cfg: Config, members: seq<(string, string)>) {
    forall i :: 0 <= i < |members| ==>
      && members[i].0 in cfg.itemMarkers && !IsListName(cfg, members[i].0)
      && Strip(members[i].1) != ""
  }

  // What a list makes of one text member: a placeholder, then the text.
  function TextItems(t: string): seq<Json> {
    [JDict(map[]), JStr(Strip(t))]
  }

  lemma TextChild(cfg: Config, tag: string, t: string, v: View)
    requires v.ListView? && tag in cfg.itemMarkers && !IsListName(cfg, tag) && Strip(t) != ""
    ensures Child(cfg, tag, [Text(t)], v) == v.(items := v.items + TextItems(t))
  {
    assert Tail([Text(t)], "") == t by { assert "" + t == t; }
    assert Content(cfg, [Text(t)], DictView(map[])) == DictView(map[]);
    assert v.items + [JDict(map[])] + [JStr(Strip(t))] == v.items + TextItems(t);
  }

  lemma TextItemsMeaning(items: seq<Json>, t: string)
    ensures NonEmpty(items + TextItems(t)) == NonEmpty(items) + [JStr(Strip(t))]
  {
    var more := TextItems(t);
    NonEmptyAppend(items, more);
    assert more[1..] == [JStr(Strip(t))] && more[1..][1..] == [];
    assert NonEmpty(more[1..]) == [JStr(Strip(t))];
  }

  lemma ContentStep(cfg: Config, x: Xml, rest: seq<Xml>, v: View)
    requires x.Elem?
    ensures Content(cfg, [x] + rest, v) == Content(cfg, rest, Child(cfg, x.name, x.kids, v))
  {
    assert ([x] + rest)[1..] == rest;
  }

  lemma {:induction false} TextContent(cfg: Config, members: seq<(string, string)>, v: View)
    requires AreTextMembers(cfg, members) && v.ListView?
    ensures var w := Content(cfg, TextMembers(members), v);
      && w.attrs == v.attrs && w.elementName == v.elementName
      && NonEmpty(w.items) == NonEmpty(v.items) + Stripped(members)
  {
    if members == [] {
    } else {
      var t := members[0].1;
      TextChild(cfg, members[0].0, t, v);
      ContentStep(cfg, Elem(members[0].0, [Text(t)]), TextMembers(members[1..]), v);
      TextContent(cfg, members[1..], v.(items := v.items + TextItems(t)));
      TextItemsMeaning(v.items, t);
      assert Stripped(members) == [JStr(Strip(t))] + Stripped(members[1..]);
      Regroup(NonEmpty(v.items), [JStr(Strip(t))], Stripped(members[1..]));
    }
  }

  lemma {:induction false} NonEmptyAppend(a: seq<Json>, b: seq<Json>)
    ensures NonEmpty(a + b) == NonEmpty(a) + NonEmpty(b)
  {
    if a == [] {
      assert a + b == b;
    } else {
      assert (a + b)[1..] == a[1..] + b;
      NonEmptyAppend(a[1..], b);
    }
  }

  // A list of non-blank text members means those strings, stripped, in order.
  lemma TextListMeaning(cfg: Config, name: string, members: seq<(string, string)>)
    requires IsListName(cfg, name) && AreTextMembers(cfg, members)
    ensures AsJson(ListMeaning(cfg, name, TextMembers(members))) == JList(Stripped(members), map[])
  {
    TextContent(cfg, members, ListView([], map[], Some(name)));
  }

  // ---- what children and text do ----

  // Children count in order, and text between them does not.
  lemma {:induction false} ContentInOrder(cfg: Config, a: seq<Xml>, b: seq<Xml>, v: View)
    ensures Content(cfg, a + b, v) == Content(cfg, b, Content(cfg, a, v))
    ensures forall t :: Content(cfg, [Text(t)], v) == v
    ensures forall name, inner :: Content(cfg, [Elem(name, inner)], v) == Child(cfg, name, inner, v)
    decreases a
  {
    if a == [] {
      assert a + b == b;
    } else {
      assert (a + b)[1..] == a[1..] + b;
      ContentInOrder(cfg, a[1..], b, if a[0].Text? then v else Child(cfg, a[0].name, a[0].kids, v));
    }
  }

  // A placeholder goes, anything else stays where it is.
  lemma NonEmptyAt(a: seq<Json>, j: Json, b: seq<Json>)
    ensures NonEmpty(a + [j] + b) == NonEmpty(a) + (if j == JDict(map[]) then [] else [j]) + NonEmpty(b)
  {
    NonEmptyAppend(a + [j], b);
    NonEmptyAppend(a, [j]);
    NonEmptyOne(j);
  }

  lemma NonEmptyOne(j: Json)
    ensures NonEmpty([j]) == if j == JDict(map[]) then [] else [j]
  {
    assert [j][1..] == [];
  }

  // Adjacent pieces of text are put together.
  lemma {:induction false} TailText(kids: seq<Xml>, t: string, text: string)
    ensures Tail(kids + [Text(t)], text) == Tail(kids, text) + t
  {
    if kids == [] {
      assert kids + [Text(t)] == [Text(t)] && [Text(t)][1..] == [];
    } else {
      assert (kids + [Text(t)])[1..] == kids[1..] + [Text(t)];
      TailText(kids[1..], t, if kids[0].Text? then text + kids[0].text else "");
    }
  }

  // Text after the last child element is the element's own; text before it is
  // dropped.
  lemma {:induction false} TailAfter(kids: seq<Xml>, tag: string, inner: seq<Xml>, t: string, text: string)
    ensures Tail(kids + [Elem(tag, inner), Text(t)], text) == t
    ensures Tail(kids + [Elem(tag, inner)], text) == ""
  {
    if kids == [] {
      assert kids + [Elem(tag, inner), Text(t)] == [Elem(tag, inner), Text(t)];
      assert [Elem(tag, inner), Text(t)][1..] == [] + [Text(t)];
      TailText([], t, "");
      assert kids + [Elem(tag, inner)] == [Elem(tag, inner)];
    } else {
      assert (kids + [Elem(tag, inner), Text(t)])[1..] == kids[1..] + [Elem(tag, inner), Text(t)];
      assert (kids + [Elem(tag, inner)])[1..] == kids[1..] + [Elem(tag, inner)];
      TailAfter(kids[1..], tag, inner, t, if kids[0].Text? then text + kids[0].text else "");
    }
  }

  // In a dict, an element that is no list denotes the dict of its children
  // exactly when its own text is blank. Any other text replaces that dict,
  // without the white space around it.
  lemma TextReplacesIff(cfg: Config, name: string, inner: seq<Xml>, d: map<string, Json>)
    returns (a: string, t: string, b: string)
    requires !IsListName(cfg, name)
    ensures Tail(inner, "") == a + t + b && AllWhite(a) && AllWhite(b) && Bare(t)
    ensures t == "" <==> AllWhite(Tail(inner, ""))
    ensures Child(cfg, name, inner, DictView(d)) ==
      DictView(d[cfg.getName(name) := if t != "" then JStr(t) else AsJson(Content(cfg, inner, DictView(map[])))])
    ensures Content(cfg, inner, DictView(map[])).DictView?
  {
    a, b := StripSplit(Tail(inner, ""));
    t := Strip(Tail(inner, ""));
    StripBlankIff(Tail(inner, ""));
  }

  // In a list, an item is its dict and then its text, if that is not blank; a
  // tag that is neither list nor item becomes an attribute, its text as it is.
  lemma TextInList(cfg: Config, name: string, inner: seq<Xml>, v: View) returns (a: string, t: string, b: string)
    requires v.ListView? && !IsListName(cfg, name)
    ensures Tail(inner, "") == a + t + b && AllWhite(a) && AllWhite(b) && Bare(t)
    ensures var item := [AsJson(Content(cfg, inner, DictView(map[])))] + if t != "" then [JStr(t)] else [];
      name in cfg.itemMarkers ==> Child(cfg, name, inner, v) == v.(items := v.items + item)
    ensures var w := Content(cfg, inner, v); var w' := w.(attrs := w.attrs[cfg.getName(name) := JStr(a + t + b)]);
      name !in cfg.itemMarkers && w.elementName != Some(name) && cfg.getName(name) != "element_name" ==>
        Child(cfg, name, inner, v) == w'
  {
    a, b := StripSplit(Tail(inner, ""));
    t := Strip(Tail(inner, ""));
  }

  // A tag that ends with a list marker, and no other, becomes a list.
  lemma ListNameIff(cfg: Config, name: string)
    ensures IsListName(cfg, name) <==> exists i, a :: 0 <= i < |cfg.listMarkers| && name == a + cfg.listMarkers[i]
  {
    if IsListName(cfg, name) {
      var i :| 0 <= i < |cfg.listMarkers| && EndsWith(name, cfg.listMarkers[i]);
      EndsWithIff(name, cfg.listMarkers[i]);
    }
    forall i, a | 0 <= i < |cfg.listMarkers| && name == a + cfg.listMarkers[i] ensures IsListName(cfg, name) {
      EndsWithIff(name, cfg.listMarkers[i]);
    }
  }

  lemma ListChildren(cfg: Config, name: string, inner: seq<Xml>, v: View)
    requires IsListName(cfg, name) && cfg.getName(name) != "element_name"
    ensures var l, key := AsJson(ListMeaning(cfg, name, inner)), cfg.getName(name);
      && l.JList?
      && Child(cfg, name, inner, v) ==
           match v
           case DictView(d) => DictView(d[key := l])
           case ListView(items, attrs, elementName) => ListView(items, attrs[key := l], elementName)
  {}

  // The line breaks of an indented document leave no trace.
  lemma IndentedIsDict(cfg: Config, outer: string, tag: string, t: string, gap: string)
    requires !IsListName(cfg, outer) && !IsListName(cfg, tag)
    requires forall c :: c in gap ==> c in [' ', '\t', '\n', '\r']
    requires t != "" && Bare(t)
    ensures Content(cfg, [Elem(outer, [Text(gap), Elem(tag, [Text(t)]), Text(gap)])], DictView(map[])) ==
      DictView(map[cfg.getName(outer) := JDict(map[cfg.getName(tag) := JStr(t)])])
  {
    var field := Elem(tag, [Text(t)]);
    var inner := [Text(gap), field, Text(gap)];
    TextField(cfg, tag, t);
    ContentStep(cfg, field, [Text(gap)], DictView(map[]));
    assert inner[1..] == [field] + [Text(gap)];
    assert Content(cfg, [Text(gap)], DictView(map[cfg.getName(tag) := JStr(t)])) == DictView(map[cfg.getName(tag) := JStr(t)]);
    TailAfter([Text(gap)], tag, [Text(t)], gap, "");
    assert [Text(gap)] + [field, Text(gap)] == inner;
    StripBlank(gap);
    ContentStep(cfg, Elem(outer, inner), [], DictView(map[]));
    assert [Elem(outer, inner)] + [] == [Elem(outer, inner)];
  }

  lemma TextField(cfg: Config, tag: string, t: string)
    requires !IsListName(cfg, tag) && t != "" && Bare(t)
    ensures Child(cfg, tag, [Text(t)], DictView(map[])) == DictView(map[cfg.getName(tag) := JStr(t)])
  {
    TailText([], t, "");
    assert [] + [Text(t)] == [Text(t)];
    assert Tail([Text(t)], "") == t;
    StripSelf(t);
    assert Content(cfg, [Text(t)], DictView(map[])) == DictView(map[]);
  }

  lemma StripSelf(t: string)
    requires Bare(t)
    ensures Strip(t) == t
  {
    StripUnique("", t, "");
    assert "" + t + "" == t;
  }
}
