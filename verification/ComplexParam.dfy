/** CloudSearch's build_complex_param: a nested dict as flat request parameters. */
module ComplexParam {
  import opened Text
  import opened Wrappers

  // A parameter value. A dict is listed in its iteration order; a value that
  // is neither a dict nor a bool is shown as the text it is sent as.
  datatype Value = Plain(text: string) | Flag(on: bool) | Dict(items: seq<Item>)
  datatype Item = Item(key: string, value: Value)

  // The keys of a dict are distinct at every level, and all are in ks.
  ghost predicate Over(items: seq<Item>, ks: iset<string>) {
    && (forall i, j :: 0 <= i < j < |items| ==> items[i].key != items[j].key)
    && (forall i :: 0 <= i < |items| ==> items[i].key in ks && (items[i].value.Dict? ==> Over(items[i].value.items, ks)))
  }

  function Sub(prefix: string, key: string): string {
    prefix + "." + key
  }

  function FlagText(on: bool): string {
    if on then "true" else "false"
  }

  // What one pass over a dict writes.
  ghost function Writes(prefix: string, items: seq<Item>): map<string, string>
    decreases items
  {
    if items == [] then map[]
    else Writes(prefix, items[..|items| - 1]) + ItemWrites(prefix, items[|items| - 1])
  }

  ghost function ItemWrites(prefix: string, item: Item): map<string, string>
    decreases item
  {
    match item.value
    case Plain(text) => map[Sub(prefix, item.key) := text]
    case Flag(on) => map[Sub(prefix, item.key) := FlagText(on)]
    case Dict(items) => Writes(Sub(prefix, item.key), items)
  }

  lemma WritesStep(prefix: string, items: seq<Item>, i: nat, m: map<string, string>)
    requires i < |items|
    ensures m + Writes(prefix, items[..i + 1]) == m + Writes(prefix, items[..i]) + ItemWrites(prefix, items[i])
  {
    assert items[..i + 1][..i] == items[..i];
  }

  // The caller's params dict.
  class Params {
    var entries: map<string, string>

    constructor ()
      ensures entries == map[]
    {
      entries := map[];
    }

    method Build(prefix: string, value: Value)
      requires value.Dict?
      modifies this
      ensures entries == old(entries) + Writes(prefix, value.items)
      decreases value
    {
      for i := 0 to |value.items|
        invariant entries == old(entries) + Writes(prefix, value.items[..i])
      {
        WritesStep(prefix, value.items, i, old(entries));
        BuildItem(prefix, value.items[i]);
      }
      assert value.items[..|value.items|] == value.items;
    }

    // The body of the loop. It recurses on a whole sub-dict once for each of
    // the sub-dict's keys, not once; the outcome is that of a single pass.
    method BuildItem(prefix: string, item: Item)
      modifies this
      ensures entries == old(entries) + ItemWrites(prefix, item)
      decreases item
    {
      var k, v := item.key, item.value;
      if v.Dict? {
        ghost var writes := Writes(Sub(prefix, k), v.items);
        for i := 0 to |v.items|
          invariant entries == if i == 0 then old(entries) else old(entries) + writes
        {
          Build(Sub(prefix, k), v);
          TwiceIsOnce(old(entries), writes);
        }
      } else if v.Flag? {
        entries := entries[Sub(prefix, k) := FlagText(v.on)];
      } else {
        entries := entries[Sub(prefix, k) := v.text];
      }
    }
  }

  lemma TwiceIsOnce(m: map<string, string>, w: map<string, string>)
    ensures m + w + w == m + w
  {}

  // A text or bool is sent under its label and key with a dot between them, a
  // sub-dict's parameters under that name in turn.
  lemma OneItemWrites(prefix: string, key: string, text: string, on: bool, items: seq<Item>)
    ensures Writes(prefix, [Item(key, Plain(text))]) == map[prefix + "." + key := text]
    ensures Writes(prefix, [Item(key, Flag(on))]) == map[prefix + "." + key := if on then "true" else "false"]
    ensures Writes(prefix, [Item(key, Dict(items))]) == Writes(prefix + "." + key, items)
  {
    SingleWrites(prefix, Item(key, Plain(text)));
    SingleWrites(prefix, Item(key, Flag(on)));
    SingleWrites(prefix, Item(key, Dict(items)));
  }

  lemma SingleWrites(prefix: string, item: Item)
    ensures Writes(prefix, [item]) == ItemWrites(prefix, item)
  {
    assert [item][..0] == [];
    assert Writes(prefix, []) == map[];
  }

  // Of two parameters with one name the later one is sent.
  lemma {:induction false} WritesInOrder(prefix: string, a: seq<Item>, b: seq<Item>)
    ensures Writes(prefix, a + b) == Writes(prefix, a) + Writes(prefix, b)
    decreases |b|
  {
    var ab := a + b;
    if b == [] {
      assert ab == a;
    } else {
      var n := |b| - 1;
      assert ab[..|ab| - 1] == a + b[..n] && ab[|ab| - 1] == b[n];
      WritesInOrder(prefix, a, b[..n]);
      AddLast(Writes(prefix, a), Writes(prefix, b[..n]), ItemWrites(prefix, b[n]));
    }
  }

  lemma AddLast(m: map<string, string>, w: map<string, string>, v: map<string, string>)
    ensures m + w + v == m + (w + v)
  {}

  // ---- what a nested dict means ----

  datatype Tree = Leaf(text: string) | Node(children: map<string, Tree>)

  const EMPTY := Node(map[])

  // The dict without its order, with bools as they are sent, and without
  // sub-dicts that hold nothing.
  ghost function Meaning(items: seq<Item>): map<string, Tree> {
    if items == [] then map[]
    else
      var item, rest := items[|items| - 1], Meaning(items[..|items| - 1]);
      if TreeOf(item.value) == EMPTY then rest else rest[item.key := TreeOf(item.value)]
  }

  ghost function TreeOf(value: Value): Tree {
    match value
    case Plain(text) => Leaf(text)
    case Flag(on) => Leaf(FlagText(on))
    case Dict(items) => Node(Meaning(items))
  }

  // The text at the end of a path of keys.
  function TextAt(m: map<string, Tree>, path: seq<string>): Option<string>
    decreases |path|
  {
    if path == [] || path[0] !in m then None
    else match m[path[0]]
      case Leaf(text) => if |path| == 1 then Some(text) else None
      case Node(children) => TextAt(children, path[1..])
  }

  lemma {:induction false} InMeaning(items: seq<Item>, i: nat)
    requires forall i, j :: 0 <= i < j < |items| ==> items[i].key != items[j].key
    requires i < |items| && TreeOf(items[i].value) != EMPTY
    ensures items[i].key in Meaning(items) && Meaning(items)[items[i].key] == TreeOf(items[i].value)
    decreases |items|
  {
    if i == |items| - 1 {
    } else {
      InMeaning(items[..|items| - 1], i);
    }
  }

  lemma {:induction false} FromMeaning(items: seq<Item>, k: string) returns (i: nat)
    requires k in Meaning(items)
    ensures i < |items| && items[i].key == k && TreeOf(items[i].value) == Meaning(items)[k] != EMPTY
  {
    var n := |items| - 1;
    if TreeOf(items[n].value) != EMPTY && items[n].key == k {
      i := n;
    } else {
      i := FromMeaning(items[..n], k);
    }
  }

  // A dict that means anything has a text somewhere.
  lemma {:induction false} SomeText(items: seq<Item>) returns (path: seq<string>)
    requires Meaning(items) != map[]
    ensures TextAt(Meaning(items), path).Some?
  {
    var k :| k in Meaning(items);
    var i := FromMeaning(items, k);
    path := [k];
    if items[i].value.Dict? {
      var rest := SomeText(items[i].value.items);
      path := [k] + rest;
      assert path[1..] == rest;
    }
  }

  // Meanings with the same texts at the same paths are the same.
  ghost predicate SameTexts(a: seq<Item>, b: seq<Item>) {
    forall path :: TextAt(Meaning(a), path) == TextAt(Meaning(b), path)
  }

  lemma {:induction false} TextsDecide(a: seq<Item>, b: seq<Item>)
    requires SameTexts(a, b)
    ensures Meaning(a) == Meaning(b)
    decreases a
  {
    forall k | k in Meaning(a) ensures k in Meaning(b) && Meaning(b)[k] == Meaning(a)[k] {
      var i := FromMeaning(a, k);
      TextsDecideKey(a, i, b);
    }
    forall k | k in Meaning(b) ensures k in Meaning(a) {
      var j := FromMeaning(b, k);
      var path := TextUnder(b, j);
      assert TextAt(Meaning(a), path) == TextAt(Meaning(b), path);
    }
  }

  lemma TextUnder(items: seq<Item>, i: nat) returns (path: seq<string>)
    requires i < |items| && items[i].key in Meaning(items)
    requires TreeOf(items[i].value) == Meaning(items)[items[i].key] != EMPTY
    ensures path != [] && path[0] == items[i].key && TextAt(Meaning(items), path).Some?
    ensures items[i].value.Dict? ==> |path| > 1
  {
    path := [items[i].key];
    if items[i].value.Dict? {
      var rest := SomeText(items[i].value.items);
      path := [items[i].key] + rest;
      assert path[1..] == rest;
    }
  }

  lemma {:induction false} TextsDecideKey(a: seq<Item>, i: nat, b: seq<Item>)
    requires SameTexts(a, b) && i < |a| && a[i].key in Meaning(a)
    requires TreeOf(a[i].value) == Meaning(a)[a[i].key] != EMPTY
    ensures a[i].key in Meaning(b) && Meaning(b)[a[i].key] == Meaning(a)[a[i].key]
    decreases a, 0
  {
    var k := a[i].key;
    var path := TextUnder(a, i);
    assert TextAt(Meaning(a), path) == TextAt(Meaning(b), path);
    if a[i].value.Dict? {
      var j := FromMeaning(b, k);
      var below, below' := a[i].value.items, b[j].value.items;
      forall rest ensures TextAt(Meaning(below), rest) == TextAt(Meaning(below'), rest) {
        assert ([k] + rest)[1..] == rest;
        assert TextAt(Meaning(a), [k] + rest) == TextAt(Meaning(b), [k] + rest);
      }
      TextsDecide(below, below');
    }
  }

  // ---- which path writes which parameter ----

  predicate PathOver(path: seq<string>, ks: iset<string>) {
    forall i :: 0 <= i < |path| ==> path[i] in ks
  }

  // The parameter that the text at a path is sent as.
  function Name(prefix: string, path: seq<string>): string
    decreases |path|
  {
    if path == [] then prefix else Name(Sub(prefix, path[0]), path[1..])
  }

  // No two paths over these keys share a name.
  ghost predicate Clear(ks: iset<string>) {
    forall p, q :: p != [] && q != [] && PathOver(p, ks) && PathOver(q, ks) && Name("", p) == Name("", q) ==> p == q
  }

  lemma {:induction false} NameAfterPrefix(prefix: string, path: seq<string>)
    ensures Name(prefix, path) == prefix + Name("", path)
    decreases |path|
  {
    if path == [] {
      assert prefix + "" == prefix;
    } else {
      NameAfterPrefix(Sub(prefix, path[0]), path[1..]);
      NameAfterPrefix(Sub("", path[0]), path[1..]);
      var key, rest := path[0], Name("", path[1..]);
      assert prefix + "." + key + rest == prefix + ("" + "." + key + rest);
    }
  }

  lemma ClearNames(prefix: string, p: seq<string>, q: seq<string>, ks: iset<string>)
    requires Clear(ks) && p != [] && q != [] && PathOver(p, ks) && PathOver(q, ks)
    requires Name(prefix, p) == Name(prefix, q)
    ensures p == q
  {
    NameAfterPrefix(prefix, p);
    NameAfterPrefix(prefix, q);
    assert Name("", p) == Name(prefix, p)[|prefix|..] == Name("", q);
  }

  lemma {:induction false} Writer(prefix: string, items: seq<Item>, x: string) returns (i: nat)
    requires x in Writes(prefix, items)
    ensures i < |items| && x in ItemWrites(prefix, items[i])
    ensures Writes(prefix, items)[x] == ItemWrites(prefix, items[i])[x]
  {
    var n := |items| - 1;
    if x in ItemWrites(prefix, items[n]) {
      i := n;
    } else {
      i := Writer(prefix, items[..n], x);
    }
  }

  lemma {:induction false} ItemWritten(prefix: string, items: seq<Item>, i: nat, x: string)
    requires i < |items| && x in ItemWrites(prefix, items[i])
    ensures x in Writes(prefix, items)
    decreases |items|
  {
    if i == |items| - 1 {
    } else {
      ItemWritten(prefix, items[..|items| - 1], i, x);
    }
  }

  // Every parameter written is the text at some path, under that path's name.
  lemma {:induction false} WritePath(prefix: string, items: seq<Item>, x: string, ks: iset<string>) returns (p: seq<string>)
    requires Over(items, ks) && x in Writes(prefix, items)
    ensures p != [] && PathOver(p, ks) && Name(prefix, p) == x
    ensures TextAt(Meaning(items), p) == Some(Writes(prefix, items)[x])
    decreases items, 1
  {
    var i := Writer(prefix, items, x);
    p := ItemPath(prefix, items, i, x, ks);
  }

  lemma {:induction false} ItemPath(prefix: string, items: seq<Item>, i: nat, x: string, ks: iset<string>)
    returns (p: seq<string>)
    requires Over(items, ks) && i < |items| && x in ItemWrites(prefix, items[i])
    ensures p != [] && p[0] == items[i].key && PathOver(p, ks) && Name(prefix, p) == x
    ensures TextAt(Meaning(items), p) == Some(ItemWrites(prefix, items[i])[x])
    decreases items, 0
  {
    var key := items[i].key;
    p := [key];
    if items[i].value.Dict? {
      var rest := WritePath(Sub(prefix, key), items[i].value.items, x, ks);
      p := [key] + rest;
      assert p[1..] == rest;
      assert rest[0] in Meaning(items[i].value.items);
    } else {
      assert p[1..] == [];
    }
    InMeaning(items, i);
  }

  // And every text is written under its path's name.
  lemma {:induction false} PathWrites(prefix: string, items: seq<Item>, p: seq<string>)
    requires TextAt(Meaning(items), p).Some?
    ensures Name(prefix, p) in Writes(prefix, items)
    decreases items
  {
    var i := FromMeaning(items, p[0]);
    if items[i].value.Dict? {
      PathWrites(Sub(prefix, p[0]), items[i].value.items, p[1..]);
      assert Name(prefix, p) in ItemWrites(prefix, items[i]);
    } else {
      assert |p| == 1 && p[1..] == [];
      assert Name(Sub(prefix, p[0]), p[1..]) == Sub(prefix, p[0]);
    }
    ItemWritten(prefix, items, i, Name(prefix, p));
  }

  lemma {:induction false} PathsAreOver(items: seq<Item>, p: seq<string>, ks: iset<string>)
    requires Over(items, ks) && TextAt(Meaning(items), p).Some?
    ensures p != [] && PathOver(p, ks)
    decreases items
  {
    var i := FromMeaning(items, p[0]);
    assert p == [p[0]] + p[1..];
    if items[i].value.Dict? {
      PathsAreOver(items[i].value.items, p[1..], ks);
    }
  }

  // With clear names, a text is sent as it is under its path's name.
  lemma ClearWrites(prefix: string, items: seq<Item>, p: seq<string>, ks: iset<string>)
    requires Clear(ks) && Over(items, ks) && TextAt(Meaning(items), p).Some?
    ensures Name(prefix, p) in Writes(prefix, items)
    ensures Some(Writes(prefix, items)[Name(prefix, p)]) == TextAt(Meaning(items), p)
  {
    PathWrites(prefix, items, p);
    PathsAreOver(items, p, ks);
    var q := WritePath(prefix, items, Name(prefix, p), ks);
    ClearNames(prefix, p, q, ks);
  }

  // So no key overwrites what another one wrote.
  lemma Written(prefix: string, items: seq<Item>, i: nat, x: string, ks: iset<string>)
    requires Clear(ks) && Over(items, ks) && i < |items| && x in ItemWrites(prefix, items[i])
    ensures x in Writes(prefix, items) && Writes(prefix, items)[x] == ItemWrites(prefix, items[i])[x]
  {
    var p := ItemPath(prefix, items, i, x, ks);
    ClearWrites(prefix, items, p, ks);
  }

  // ---- when the flattening loses nothing ----

  lemma SameWritesSameTexts(prefix: string, a: seq<Item>, b: seq<Item>, ks: iset<string>, path: seq<string>)
    requires Clear(ks) && Over(a, ks) && Over(b, ks) && Writes(prefix, a) == Writes(prefix, b)
    requires TextAt(Meaning(a), path).Some?
    ensures TextAt(Meaning(b), path) == TextAt(Meaning(a), path)
  {
    var x := Name(prefix, path);
    ClearWrites(prefix, a, path, ks);
    PathsAreOver(a, path, ks);
    var q := WritePath(prefix, b, x, ks);
    ClearNames(prefix, path, q, ks);
  }

  lemma SameMeaningSameWrite(prefix: string, a: seq<Item>, b: seq<Item>, ks: iset<string>, x: string)
    requires Clear(ks) && Over(a, ks) && Over(b, ks) && Meaning(a) == Meaning(b) && x in Writes(prefix, a)
    ensures x in Writes(prefix, b) && Writes(prefix, b)[x] == Writes(prefix, a)[x]
  {
    var p := WritePath(prefix, a, x, ks);
    ClearWrites(prefix, b, p, ks);
  }

  // Over clear keys two dicts are sent alike iff they mean the same.
  lemma ClearFlattening(prefix: string, a: seq<Item>, b: seq<Item>, ks: iset<string>)
    requires Clear(ks) && Over(a, ks) && Over(b, ks)
    ensures Writes(prefix, a) == Writes(prefix, b) <==> Meaning(a) == Meaning(b)
  {
    if Writes(prefix, a) == Writes(prefix, b) {
      forall path ensures TextAt(Meaning(a), path) == TextAt(Meaning(b), path) {
        if TextAt(Meaning(a), path).Some? {
          SameWritesSameTexts(prefix, a, b, ks, path);
        } else if TextAt(Meaning(b), path).Some? {
          SameWritesSameTexts(prefix, b, a, ks, path);
        }
      }
      TextsDecide(a, b);
    }
    if Meaning(a) == Meaning(b) {
      forall x | x in Writes(prefix, a) ensures x in Writes(prefix, b) && Writes(prefix, b)[x] == Writes(prefix, a)[x] {
        SameMeaningSameWrite(prefix, a, b, ks, x);
      }
      forall x | x in Writes(prefix, b) ensures x in Writes(prefix, a) {
        SameMeaningSameWrite(prefix, b, a, ks, x);
      }
    }
  }

  // A dict with one text in it.
  function Nest(path: seq<string>): seq<Item>
    requires path != []
  {
    if |path| == 1 then [Item(path[0], Plain(""))] else [Item(path[0], Dict(Nest(path[1..])))]
  }

  lemma {:induction false} NestMeans(prefix: string, path: seq<string>, ks: iset<string>)
    requires path != [] && PathOver(path, ks)
    ensures Over(Nest(path), ks) && Writes(prefix, Nest(path)) == map[Name(prefix, path) := ""]
    ensures TextAt(Meaning(Nest(path)), path) == Some("")
    ensures forall p :: TextAt(Meaning(Nest(path)), p).Some? ==> p == path
    decreases |path|
  {
    var items := Nest(path);
    assert items[..0] == [];
    assert Writes(prefix, items) == ItemWrites(prefix, items[0]);
    if |path| == 1 {
      assert path[1..] == [];
      assert Meaning(items) == map[path[0] := Leaf("")];
    } else {
      NestMeans(Sub(prefix, path[0]), path[1..], ks);
      assert path[1] in Meaning(Nest(path[1..]));
      assert Meaning(items) == map[path[0] := Node(Meaning(Nest(path[1..])))];
    }
    forall p | TextAt(Meaning(items), p).Some? ensures p == path {
      assert p == [p[0]] + p[1..] && path == [path[0]] + path[1..];
      assert p[0] == path[0];
      if |path| > 1 {
        assert TextAt(Meaning(Nest(path[1..])), p[1..]).Some?;
      } else {
        assert |p| == 1;
      }
    }
  }

  // Different dicts over some keys are always sent differently exactly when no
  // two paths over these keys share a name.
  lemma FlatteningIffClear(prefix: string, ks: iset<string>)
    ensures
      (forall a, b :: Over(a, ks) && Over(b, ks) && Writes(prefix, a) == Writes(prefix, b) ==> Meaning(a) == Meaning(b))
      <==> Clear(ks)
  {
    if Clear(ks) {
      forall a, b | Over(a, ks) && Over(b, ks) && Writes(prefix, a) == Writes(prefix, b) ensures Meaning(a) == Meaning(b) {
        ClearFlattening(prefix, a, b, ks);
      }
    } else {
      var p, q :| p != [] && q != [] && PathOver(p, ks) && PathOver(q, ks) && Name("", p) == Name("", q) && p != q;
      NameAfterPrefix(prefix, p);
      NameAfterPrefix(prefix, q);
      NestMeans(prefix, p, ks);
      NestMeans(prefix, q, ks);
      assert Writes(prefix, Nest(p)) == Writes(prefix, Nest(q));
      assert TextAt(Meaning(Nest(p)), p) != TextAt(Meaning(Nest(q)), p);
    }
  }

  // ---- which keys are clear ----

  ghost function DotFree(): iset<string> {
    iset k: string | '.' !in k
  }

  lemma {:induction false} NameIsJoin(prefix: string, path: seq<string>)
    ensures Name(prefix, path) == Join([prefix] + path, '.')
    decreases |path|
  {
    if path == [] {
      assert [prefix] + path == [prefix];
    } else {
      var key, rest := path[0], path[1..];
      NameIsJoin(Sub(prefix, key), rest);
      assert ([prefix] + path)[1..] == [key] + rest;
      JoinFirst(prefix, key, rest);
    }
  }

  lemma JoinFirst(prefix: string, key: string, rest: seq<string>)
    ensures Join([Sub(prefix, key)] + rest, '.') == prefix + ['.'] + Join([key] + rest, '.')
  {
    assert ([Sub(prefix, key)] + rest)[1..] == rest && ([key] + rest)[1..] == rest;
    var more := ['.'] + Join(rest, '.');
    assert prefix + "." + key + more == prefix + ['.'] + (key + more);
    if rest != [] {
      assert Sub(prefix, key) + ['.'] + Join(rest, '.') == Sub(prefix, key) + more;
      assert key + ['.'] + Join(rest, '.') == key + more;
    }
  }

  lemma DotFreeIsClear()
    ensures Clear(DotFree())
  {
    forall p, q | PathOver(p, DotFree()) && PathOver(q, DotFree()) && Name("", p) == Name("", q) ensures p == q {
      NameIsJoin("", p);
      NameIsJoin("", q);
      SplitOfJoin([""] + p, '.');
      SplitOfJoin([""] + q, '.');
      assert p == ([""] + p)[1..] && q == ([""] + q)[1..];
    }
  }

  // So dicts with dot-free keys are sent alike iff they mean the same.
  lemma FlatteningIsExact(prefix: string, a: seq<Item>, b: seq<Item>)
    requires Over(a, DotFree()) && Over(b, DotFree())
    ensures Writes(prefix, a) == Writes(prefix, b) <==> Meaning(a) == Meaning(b)
  {
    DotFreeIsClear();
    ClearFlattening(prefix, a, b, DotFree());
  }

  // A dot in a key makes different dicts come out the same.
  lemma DottedKeysCollide(prefix: string, k: string, l: string, text: string)
    ensures var a, b := [Item(k + "." + l, Plain(text))], [Item(k, Dict([Item(l, Plain(text))]))];
      Writes(prefix, a) == Writes(prefix, b) && Meaning(a) != Meaning(b)
  {
    var inner := [Item(l, Plain(text))];
    var a, b := [Item(k + "." + l, Plain(text))], [Item(k, Dict(inner))];
    assert a[..0] == [] && b[..0] == [] && inner[..0] == [];
    assert Sub(prefix, k + "." + l) == Sub(Sub(prefix, k), l);
    assert Writes(prefix, a) == map[Sub(prefix, k + "." + l) := text];
    assert Writes(Sub(prefix, k), inner) == map[Sub(Sub(prefix, k), l) := text];
    assert Writes(prefix, b) == ItemWrites(prefix, b[0]);
    assert Meaning(inner) == map[l := Leaf(text)];
    assert l in Meaning(inner);
    assert Meaning(b) == map[k := Node(Meaning(inner))];
    assert |k + "." + l| > |k|;
    assert k in Meaning(b) && k !in Meaning(a);
  }

  // A dotted key next to its own parts is not clear,
  lemma DottedPartsCollide(ks: iset<string>, k: string, l: string)
    requires k in ks && l in ks && k + "." + l in ks
    ensures !Clear(ks)
  {
    var p, q := [k + "." + l], [k, l];
    assert p[1..] == [] && q[1..] == [l] && q[1..][1..] == [];
    assert Sub("", k + "." + l) == Sub(Sub("", k), l);
    assert Name("", p) == Name("", q);
    assert PathOver(p, ks) && PathOver(q, ks) && p != q;
  }

  lemma {:induction false} NameGrows(prefix: string, path: seq<string>)
    ensures |Name(prefix, path)| >= |prefix| + |path|
    decreases |path|
  {
    if path == [] {
    } else {
      NameGrows(Sub(prefix, path[0]), path[1..]);
    }
  }

  // but a single key is, dotted or not.
  lemma OneKeyIsClear(k: string)
    ensures Clear(iset{k})
  {
    forall p, q | PathOver(p, iset{k}) && PathOver(q, iset{k}) && Name("", p) == Name("", q) ensures p == q {
      SameLength(k, "", p, q);
    }
  }

  lemma {:induction false} SameLength(k: string, prefix: string, p: seq<string>, q: seq<string>)
    requires PathOver(p, iset{k}) && PathOver(q, iset{k}) && Name(prefix, p) == Name(prefix, q)
    ensures p == q
    decreases |p|
  {
    NameGrows(prefix, p);
    NameGrows(prefix, q);
    if p != [] && q != [] {
      SameLength(k, Sub(prefix, k), p[1..], q[1..]);
      assert p == [k] + p[1..] && q == [k] + q[1..];
    }
  }
}
