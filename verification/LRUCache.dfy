/**
  The dictionary of nodes and the doubly linked list of boto.utils.LRUCache,
  kept on the heap and refined to the recency list of module RecencyList.
*/
module LRUCaches {
  import opened Wrappers
  import opened RecencyList

  // One node of the list (the source's _Item).
  class Item<K, V> {
    const key: K
    var value: V
    var previous: Item?<K, V>
    var next: Item?<K, V>

    constructor (key: K, value: V)
      ensures this.key == key && this.value == value
    {
      this.key, this.value := key, value;
      this.previous, this.next := null, null;
    }
  }

  // The nodes of s are linked both ways, in the order of s.
  ghost predicate Chain<K, V>(s: seq<Item<K, V>>)
    reads s`previous, s`next
  {
    && (s != [] ==> s[0].previous == null && s[|s| - 1].next == null)
    && (forall i {:trigger s[i].previous} :: 1 <= i < |s| ==> s[i].previous == s[i - 1])
    && (forall i {:trigger s[i].next} :: 0 <= i < |s| - 1 ==> s[i].next == s[i + 1])
  }

  ghost predicate DistinctKeys<K, V>(s: seq<Item<K, V>>) {
    forall i, j :: 0 <= i < j < |s| ==> s[i].key != s[j].key
  }

  // The dictionary that maps the key of every node of s to that node.
  ghost function Index<K, V>(s: seq<Item<K, V>>): map<K, Item<K, V>> {
    if s == [] then map[] else Index(s[..|s| - 1])[s[|s| - 1].key := s[|s| - 1]]
  }

  // The entries the nodes of s hold.
  ghost function Entries<K, V>(s: seq<Item<K, V>>): seq<Entry<K, V>>
    reads s`value
  {
    if s == [] then [] else [Entry(s[0].key, s[0].value)] + Entries(s[1..])
  }

  lemma {:induction false} EntriesAt<K, V>(s: seq<Item<K, V>>)
    ensures |Entries(s)| == |s|
    ensures forall i :: 0 <= i < |s| ==> Entries(s)[i] == Entry(s[i].key, s[i].value)
  {
    if s == [] {
    } else {
      EntriesAt(s[1..]);
    }
  }

  // s without, and with, its element at p moved to the front.
  ghost function Cut<T>(s: seq<T>, p: nat): seq<T>
    requires p < |s|
  {
    s[..p] + s[p + 1..]
  }

  ghost function Moved<T>(s: seq<T>, p: nat): seq<T>
    requires p < |s|
  {
    [s[p]] + Cut(s, p)
  }

  class LRUCache<K(==), V> {
    var dict: map<K, Item<K, V>>
    const capacity: nat
    var head: Item?<K, V>
    var tail: Item?<K, V>
    ghost var items: seq<Item<K, V>>  // the nodes from head to tail

    // An acyclic doubly linked list from head to tail.
    ghost predicate Linked()
      reads this, items
    {
      && DistinctKeys(items)
      && head == (if items == [] then null else items[0])
      && tail == (if items == [] then null else items[|items| - 1])
      && Chain(items)
    }

    // The heap invariant.
    ghost predicate Valid()
      reads this, items
    {
      Linked() && dict == Index(items) && |items| <= capacity
    }

    // The abstract value: the entries, most recently used first.
    ghost function Contents(): seq<Entry<K, V>>
      reads this, items
    {
      Entries(items)
    }

    constructor (capacity: nat)
      ensures Valid() && this.capacity == capacity
      ensures items == [] && Contents() == []
    {
      this.dict, this.capacity := map[], capacity;
      this.head, this.tail, this.items := null, null, [];
    }

    // __getitem__: None stands for KeyError.
    method GetItem(key: K) returns (value: Option<V>)
      requires Valid()
      modifies this`head, this`tail, this`items, ToSet(items)`previous, ToSet(items)`next
      ensures Valid() && ToSet(items) == old(ToSet(items))
      ensures value == Find(old(Contents()), key)
      ensures Contents() == Step(old(Contents()), Get(key), capacity)
    {
      ghost var p := Lookup(items, key);
      if key !in dict {
        return None;
      }
      var item := dict[key];
      UpdateItem(item, p);
      return Some(item.value);
    }

    method SetItem(key: K, value: V)
      requires Valid()
      modifies this, ToSet(items)
      ensures Valid() && fresh(ToSet(items) - old(ToSet(items)))
      ensures Contents() == Step(old(Contents()), Set(key, value), capacity)
    {
      ghost var p := Lookup(items, key);
      if key !in dict {
        AddItem(key, value);
      } else {
        var item := dict[key];
        Overwrite(item, value, p);
      }
    }

    // __setitem__ when the key is new.
    method AddItem(key: K, value: V)
      requires Valid() && key !in dict
      modifies this`dict, this`head, this`tail, this`items, ToSet(items)`previous, ToSet(items)`next
      ensures Valid() && fresh(ToSet(items) - old(ToSet(items)))
      ensures Contents() == Take([Entry(key, value)] + old(Contents()), capacity)
    {
      ghost var before := Contents();
      NotThere(items, key);
      var item := new Item(key, value);
      dict := dict[key := item];
      IndexFront(items, item);
      assert Linked() && Contents() == before;
      InsertItem(item);
    }

    // __setitem__ when the key is there already.
    method Overwrite(item: Item<K, V>, value: V, ghost p: nat)
      requires Valid() && p < |items| && items[p] == item
      modifies this`dict, this`head, this`tail, this`items
      modifies ToSet(items)`previous, ToSet(items)`next, item`value
      ensures Valid() && ToSet(items) <= old(ToSet(items))
      ensures |old(Contents())| == |old(items)|
      ensures Contents() == Take([Entry(item.key, value)] + Cut(old(Contents()), p), capacity)
    {
      SetValue(item, value, p);
      UpdateItem(item, p);
      ManageSize();
    }

    // The assignment `item.value = value`.
    method SetValue(item: Item<K, V>, value: V, ghost p: nat)
      requires DistinctKeys(items) && p < |items| && items[p] == item
      modifies item`value
      ensures |Entries(items)| == |old(Entries(items))| == |items|
      ensures Moved(Entries(items), p) == [Entry(item.key, value)] + Cut(old(Entries(items)), p)
    {
      EntriesAt(items);
      ghost var was := Entries(items);
      item.value := value;
      EntriesAt(items);
      assert Entries(items) == was[p := Entry(item.key, value)];
    }

    method InsertItem(item: Item<K, V>)
      requires Linked() && dict == Index([item] + items)
      requires forall i :: 0 <= i < |items| ==> items[i].key != item.key
      modifies this`dict, this`head, this`tail, this`items
      modifies ToSet(items)`previous, ToSet(items)`next, item`previous, item`next
      ensures Valid() && ToSet(items) <= old(ToSet(items)) + {item}
      ensures Contents() == Take([Entry(item.key, item.value)] + old(Contents()), capacity)
    {
      EntriesFront(item, items);
      PushFront(item);
      ManageSize();
    }

    // Links a detached item in front of the head.
    method PushFront(item: Item<K, V>)
      requires Linked() && forall i :: 0 <= i < |items| ==> items[i].key != item.key
      modifies this`head, this`tail, this`items, items`previous, item`previous, item`next
      ensures Linked() && items == [item] + old(items)
    {
      item.previous := null;
      item.next := head;
      if head != null {
        head.previous := item;
      } else {
        tail := item;
      }
      head := item;
      items := [item] + items;
    }

    method ManageSize()
      requires Linked() && dict == Index(items)
      modifies this`head, this`tail, this`items, this`dict, ToSet(items)`next
      ensures Valid() && ToSet(items) <= old(ToSet(items))
      ensures Contents() == Take(old(Contents()), capacity)
    {
      EntriesTake(items, capacity);
      TakeSet(items, capacity);
      DropOverflow();
    }

    // The loop of _manage_size.
    method DropOverflow()
      requires Linked() && dict == Index(items)
      modifies this`head, this`tail, this`items, this`dict, items`next
      ensures Valid() && items == Take(old(items), capacity)
    {
      IndexSize(items);
      while |dict| > capacity
        invariant Linked() && dict == Index(items)
        invariant |dict| == |items| && items <= old(items)
        invariant |items| >= capacity || items == old(items)
        decreases |dict|
      {
        IndexDropLast(items);
        DropTail();
        IndexSize(items);
      }
    }

    // The body of that loop.
    method DropTail()
      requires Linked() && items != []
      modifies this`head, this`tail, this`items, this`dict, items`next
      ensures Linked() && items == old(items)[..|old(items)| - 1]
      ensures dict == old(dict) - {old(items)[|old(items)| - 1].key}
    {
      dict := dict - {tail.key};
      if tail != head {
        tail := tail.previous;
        tail.next := null;
      } else {
        head, tail := null, null;
      }
      items := items[..|items| - 1];
    }

    // Moves an item that is already in the list to its head.
    method UpdateItem(item: Item<K, V>, ghost p: nat)
      requires Linked() && p < |items| && items[p] == item
      modifies this`head, this`tail, this`items, ToSet(items)`previous, ToSet(items)`next
      ensures Linked() && Index(items) == old(Index(items)) && ToSet(items) == old(ToSet(items))
      ensures |items| == |old(items)| == |old(Contents())|
      ensures Contents() == Moved(old(Contents()), p)
    {
      IndexMoved(items, p);
      EntriesMoved(items, p);
      MovedSet(items, p);
      MovedAt(items, p);
      Relink(item, p);
    }

    // The pointer updates of _update_item.
    method Relink(item: Item<K, V>, ghost p: nat)
      requires Linked() && p < |items| && items[p] == item
      modifies this`head, this`tail, this`items, items`previous, items`next
      ensures Linked() && items == Moved(old(items), p)
    {
      MovedDistinct(items, p);
      if head == item {
        assert p == 0;
        return;
      }
      Unlink(item, p);
      PushFront(item);
    }

    // Splices an item that is not the head out of the list.
    method Unlink(item: Item<K, V>, ghost p: nat)
      requires Linked() && 0 < p < |items| && items[p] == item
      modifies this`tail, this`items, items`previous, items`next
      ensures Linked() && items == Cut(old(items), p)
    {
      CutDistinct(items, p);
      var previous := item.previous;
      previous.next := item.next;
      if item.next != null {
        item.next.previous := previous;
      } else {
        tail := previous;
      }
      items := Cut(items, p);
    }

    method Contains(key: K) returns (found: bool)
      requires Valid()
      ensures found <==> Find(Contents(), key).Some?
    {
      ghost var p := Lookup(items, key);
      found := key in dict;
    }

    method Len() returns (n: nat)
      requires Valid()
      ensures n == |Contents()| <= capacity
    {
      IndexAt(items);
      EntriesAt(items);
      n := |dict|;
    }

    // __iter__, run to its end.
    method Iterate() returns (keys: seq<K>)
      requires Valid()
      ensures keys == Keys(Contents())
    {
      EntriesAt(items);
      keys := [];
      var cur := head;
      while cur != null
        invariant |keys| <= |items|
        invariant cur == if |keys| == |items| then null else items[|keys|]
        invariant forall i :: 0 <= i < |keys| ==> keys[i] == items[i].key
        decreases |items| - |keys|
      {
        keys := keys + [cur.key];
        cur := cur.next;
      }
    }
  }

  lemma {:induction false} IndexAt<K, V>(s: seq<Item<K, V>>)
    requires DistinctKeys(s)
    ensures |Index(s)| == |s|
    ensures forall i :: 0 <= i < |s| ==> s[i].key in Index(s) && Index(s)[s[i].key] == s[i]
    ensures forall k :: k in Index(s) ==> exists i :: 0 <= i < |s| && s[i].key == k
  {
    if s == [] {
    } else {
      var t, x := s[..|s| - 1], s[|s| - 1];
      IndexAt(t);
      assert x.key !in Index(t);
      forall k | k in Index(s) ensures exists i :: 0 <= i < |s| && s[i].key == k {
        if k == x.key {
          assert s[|s| - 1].key == k;
        } else {
          var i :| 0 <= i < |t| && t[i].key == k;
          assert s[i].key == k;
        }
      }
    }
  }

  lemma IndexSize<K, V>(s: seq<Item<K, V>>)
    requires DistinctKeys(s)
    ensures |Index(s)| == |s|
  {
    IndexAt(s);
  }

  lemma EntriesDistinct<K, V>(s: seq<Item<K, V>>)
    requires DistinctKeys(s)
    ensures Distinct(Keys(Entries(s)))
  {
    EntriesAt(s);
    DistinctIndices(Keys(Entries(s)));
  }

  // The recency list finds a key iff the dictionary does, at its node.
  lemma Lookup<K, V>(s: seq<Item<K, V>>, k: K) returns (p: nat)
    requires DistinctKeys(s)
    ensures k in Index(s) ==> p < |s| && s[p] == Index(s)[k] && s[p].key == k
    ensures k in Index(s) ==> Find(Entries(s), k) == Some(s[p].value)
    ensures k in Index(s) ==> |Entries(s)| == |s| && Entries(s)[p] == Entry(k, s[p].value)
    ensures k in Index(s) ==> Without(Entries(s), k) == Cut(Entries(s), p)
    ensures k !in Index(s) ==> Find(Entries(s), k) == None && Without(Entries(s), k) == Entries(s)
    ensures k !in Index(s) ==> forall i :: 0 <= i < |s| ==> s[i].key != k
  {
    p := 0;
    IndexAt(s);
    if k in Index(s) {
      p :| 0 <= p < |s| && s[p].key == k;
      EntriesAt(s);
      EntriesDistinct(s);
      WithoutSplit(Entries(s), p);
    } else {
      NotFound(s, k);
    }
  }

  lemma NotThere<K, V>(s: seq<Item<K, V>>, k: K)
    requires DistinctKeys(s) && k !in Index(s)
    ensures forall i :: 0 <= i < |s| ==> s[i].key != k
  {
    var _ := Lookup(s, k);
  }

  lemma NotFound<K, V>(s: seq<Item<K, V>>, k: K)
    requires forall i :: 0 <= i < |s| ==> s[i].key != k
    ensures Find(Entries(s), k) == None && Without(Entries(s), k) == Entries(s)
  {
    EntriesAt(s);
    KeysWithout(Entries(s), k);
  }

  lemma EntriesMoved<K, V>(s: seq<Item<K, V>>, p: nat)
    requires p < |s|
    ensures |Entries(s)| == |s| && Entries(Moved(s, p)) == Moved(Entries(s), p)
  {
    EntriesAt(s);
    MovedAt(s, p);
    EntriesAt(Moved(s, p));
    MovedAt(Entries(s), p);
  }

  lemma EntriesFront<K, V>(x: Item<K, V>, s: seq<Item<K, V>>)
    ensures Entries([x] + s) == [Entry(x.key, x.value)] + Entries(s)
  {
    assert ([x] + s)[1..] == s;
  }

  lemma EntriesTake<K, V>(s: seq<Item<K, V>>, n: nat)
    ensures Entries(Take(s, n)) == Take(Entries(s), n)
  {
    EntriesAt(s);
    EntriesAt(Take(s, n));
  }

  // A map with the nodes of s under their keys, and no more, is its index.
  lemma SameIndex<K, V>(s: seq<Item<K, V>>, m: map<K, Item<K, V>>)
    requires DistinctKeys(s)
    requires forall i :: 0 <= i < |s| ==> s[i].key in m && m[s[i].key] == s[i]
    requires forall k :: k in m ==> exists i :: 0 <= i < |s| && s[i].key == k
    ensures Index(s) == m
  {
    IndexAt(s);
  }

  lemma {:induction false} IndexFront<K, V>(s: seq<Item<K, V>>, x: Item<K, V>)
    requires forall i :: 0 <= i < |s| ==> s[i].key != x.key
    ensures Index([x] + s) == Index(s)[x.key := x]
  {
    var xs := [x] + s;
    if s != [] {
      IndexFront(s[..|s| - 1], x);
      assert xs[..|xs| - 1] == [x] + s[..|s| - 1];
    } else {
      assert xs[..0] == [];
    }
  }

  lemma MovedAt<T>(s: seq<T>, p: nat)
    requires p < |s|
    ensures |Moved(s, p)| == |s|
    ensures forall i {:trigger Moved(s, p)[i]} :: 0 <= i < |s| ==>
      Moved(s, p)[i] == if i == 0 then s[p] else if i <= p then s[i - 1] else s[i]
  {}

  lemma MovedSet<T>(s: seq<T>, p: nat)
    requires p < |s|
    ensures ToSet(Moved(s, p)) == ToSet(s)
  {
    assert s == s[..p] + [s[p]] + s[p + 1..];
  }

  lemma TakeSet<T>(s: seq<T>, n: nat)
    ensures ToSet(Take(s, n)) <= ToSet(s)
  {}

  lemma MovedKey<K, V>(s: seq<Item<K, V>>, p: nat, k: K)
    requires p < |s| && exists i :: 0 <= i < |s| && s[i].key == k
    ensures exists i :: 0 <= i < |s| && Moved(s, p)[i].key == k
  {
    var i :| 0 <= i < |s| && s[i].key == k;
    MovedAt(s, p);
    assert Moved(s, p)[if i == p then 0 else if i < p then i + 1 else i].key == k;
  }

  lemma MovedNode<K, V>(s: seq<Item<K, V>>, p: nat, i: nat)
    requires DistinctKeys(s) && p < |s| && i < |s|
    ensures |Moved(s, p)| == |s|
    ensures Moved(s, p)[i].key in Index(s) && Index(s)[Moved(s, p)[i].key] == Moved(s, p)[i]
  {
    IndexAt(s);
    MovedAt(s, p);
  }

  lemma IndexMoved<K, V>(s: seq<Item<K, V>>, p: nat)
    requires DistinctKeys(s) && p < |s|
    ensures Index(Moved(s, p)) == Index(s)
  {
    MovedDistinct(s, p);
    forall i | 0 <= i < |s|
      ensures Moved(s, p)[i].key in Index(s) && Index(s)[Moved(s, p)[i].key] == Moved(s, p)[i]
    {
      MovedNode(s, p, i);
    }
    forall k | k in Index(s) ensures exists i :: 0 <= i < |s| && Moved(s, p)[i].key == k {
      IndexAt(s);
      MovedKey(s, p, k);
    }
    SameIndex(Moved(s, p), Index(s));
  }

  lemma MovedDistinct<K, V>(s: seq<Item<K, V>>, p: nat)
    requires DistinctKeys(s) && p < |s|
    ensures DistinctKeys(Moved(s, p))
  {
    MovedAt(s, p);
  }

  lemma CutDistinct<K, V>(s: seq<Item<K, V>>, p: nat)
    requires DistinctKeys(s) && p < |s|
    ensures DistinctKeys(Cut(s, p))
  {}

  lemma IndexDropLast<K, V>(s: seq<Item<K, V>>)
    requires s != [] && DistinctKeys(s)
    ensures Index(s[..|s| - 1]) == Index(s) - {s[|s| - 1].key}
  {
    var k, m := s[|s| - 1].key, Index(s[..|s| - 1]);
    IndexAt(s[..|s| - 1]);
    assert k !in m;
    PutThenDrop(m, k, s[|s| - 1]);
  }

  lemma PutThenDrop<A, B>(m: map<A, B>, k: A, v: B)
    requires k !in m
    ensures m[k := v] - {k} == m
  {}
}
