/**
  The abstract value of an LRU cache: its entries, most recently used first.
  The module defines what each cache operation does to that list, and proves
  what whole runs of operations do, at one capacity and at two.
*/
module RecencyList {
  import opened Wrappers

  datatype Entry<K, V> = Entry(key: K, value: V)

  datatype Op<K, V> = Get(key: K) | Set(key: K, value: V)

  function Keys<K, V>(s: seq<Entry<K, V>>): (ks: seq<K>)
    ensures |ks| == |s|
    ensures forall i :: 0 <= i < |s| ==> ks[i] == s[i].key
  {
    if s == [] then [] else [s[0].key] + Keys(s[1..])
  }

  ghost predicate Distinct<T>(s: seq<T>) {
    s == [] || (s[0] !in s[1..] && Distinct(s[1..]))
  }

  function Find<K(==), V>(s: seq<Entry<K, V>>, k: K): Option<V> {
    if s == [] then None
    else if s[0].key == k then Some(s[0].value)
    else Find(s[1..], k)
  }

  function Without<K(==), V>(s: seq<Entry<K, V>>, k: K): seq<Entry<K, V>> {
    if s == [] then []
    else if s[0].key == k then Without(s[1..], k)
    else [s[0]] + Without(s[1..], k)
  }

  function Drop<K(==)>(s: seq<K>, k: K): seq<K> {
    if s == [] then [] else if s[0] == k then Drop(s[1..], k) else [s[0]] + Drop(s[1..], k)
  }

  function Take<T>(s: seq<T>, n: nat): seq<T> {
    if |s| <= n then s else s[..n]
  }

  // What one operation does at a given capacity. A hit moves its key to the
  // front, an overwrite does too with the new value, an insertion conses, and
  // overflow drops the last entry. A miss (KeyError) changes nothing.
  function Step<K(==), V>(s: seq<Entry<K, V>>, op: Op<K, V>, capacity: nat): seq<Entry<K, V>> {
    match op
    case Get(k) =>
      (match Find(s, k)
       case Some(v) => [Entry(k, v)] + Without(s, k)
       case None => s)
    case Set(k, v) => Take([Entry(k, v)] + Without(s, k), capacity)
  }

  // An operation accesses its key successfully unless it is a missing Get.
  predicate Accesses<K(==), V>(s: seq<Entry<K, V>>, op: Op<K, V>) {
    op.Set? || Find(s, op.key).Some?
  }

  function Run<K(==), V>(trace: seq<Op<K, V>>, capacity: nat): seq<Entry<K, V>> {
    if trace == [] then []
    else Step(Run(trace[..|trace| - 1], capacity), trace[|trace| - 1], capacity)
  }

  // The keys successfully accessed by a run, oldest first.
  function AccessLog<K(==), V>(trace: seq<Op<K, V>>, capacity: nat): seq<K> {
    if trace == [] then []
    else
      var init, op := trace[..|trace| - 1], trace[|trace| - 1];
      AccessLog(init, capacity) + if Accesses(Run(init, capacity), op) then [op.key] else []
  }

  // The value the last Set of k in the trace stored, whatever happened since.
  function LastSet<K(==), V>(trace: seq<Op<K, V>>, k: K): Option<V> {
    if trace == [] then None
    else
      var op := trace[|trace| - 1];
      if op.Set? && op.key == k then Some(op.value) else LastSet(trace[..|trace| - 1], k)
  }

  // ---- facts about a single list ----

  lemma {:induction false} DistinctIndices<T>(s: seq<T>)
    ensures Distinct(s) <==> forall i, j :: 0 <= i < j < |s| ==> s[i] != s[j]
  {
    if s == [] {
    } else {
      DistinctIndices(s[1..]);
      assert forall j :: 0 <= j < |s| - 1 ==> s[1..][j] == s[j + 1];
      assert s[0] in s[1..] ==> exists j :: 0 < j < |s| && s[j] == s[0];
      if Distinct(s) {
        forall i, j | 0 <= i < j < |s| ensures s[i] != s[j] {
          assert s[j] == s[1..][j - 1];
          if i > 0 {
            assert s[i] == s[1..][i - 1];
          }
        }
      }
    }
  }

  lemma {:induction false} DropMembers<K>(s: seq<K>, k: K)
    ensures forall x :: x in Drop(s, k) <==> x in s && x != k
    ensures k !in s ==> Drop(s, k) == s
    ensures |Drop(s, k)| <= |s| && (k in s ==> |Drop(s, k)| < |s|)
  {
    if s == [] {
    } else {
      DropMembers(s[1..], k);
      assert s == [s[0]] + s[1..];
    }
  }

  lemma {:induction false} DropDistinct<K>(s: seq<K>, k: K)
    requires Distinct(s)
    ensures Distinct([k] + Drop(s, k))
    ensures k in s ==> |Drop(s, k)| == |s| - 1
  {
    DropMembers(s, k);
    assert ([k] + Drop(s, k))[1..] == Drop(s, k);
    if s == [] {
    } else {
      DropDistinct(s[1..], k);
      DropMembers(s[1..], k);
      assert ([k] + Drop(s[1..], k))[1..] == Drop(s[1..], k);
      assert s[0] != k ==> Drop(s, k)[1..] == Drop(s[1..], k);
    }
  }

  lemma {:induction false} KeysWithout<K, V>(s: seq<Entry<K, V>>, k: K)
    ensures Keys(Without(s, k)) == Drop(Keys(s), k)
    ensures Find(s, k).Some? <==> k in Keys(s)
    ensures k !in Keys(s) ==> Without(s, k) == s
  {
    if s == [] {
    } else {
      KeysWithout(s[1..], k);
      assert Keys(s) == [s[0].key] + Keys(s[1..]);
      assert s[0].key != k ==> Without(s, k)[1..] == Without(s[1..], k);
    }
  }

  lemma KeysTake<K, V>(s: seq<Entry<K, V>>, n: nat)
    ensures Keys(Take(s, n)) == Take(Keys(s), n)
  {}

  lemma {:induction false} DistinctTake<T>(s: seq<T>, n: nat)
    requires Distinct(s)
    ensures Distinct(Take(s, n))
  {
    if 0 < n < |s| {
      DistinctTake(s[1..], n - 1);
      assert s[..n][1..] == s[1..][..n - 1];
    }
  }

  // The entry at position p is the one its key finds, and removing the key
  // removes just that position.
  lemma {:induction false} WithoutSplit<K, V>(s: seq<Entry<K, V>>, p: nat)
    requires p < |s| && Distinct(Keys(s))
    ensures Find(s, s[p].key) == Some(s[p].value)
    ensures Without(s, s[p].key) == s[..p] + s[p + 1..]
  {
    assert Keys(s)[1..] == Keys(s[1..]);
    if p == 0 {
      KeysWithout(s[1..], s[0].key);
    } else {
      assert Keys(s)[1..][p - 1] == s[p].key;
      assert s[0].key != s[p].key;
      WithoutSplit(s[1..], p - 1);
      CutTail(s, p);
    }
  }

  lemma CutTail<T>(s: seq<T>, p: nat)
    requires 0 < p < |s|
    ensures s[..p] + s[p + 1..] == [s[0]] + (s[1..][..p - 1] + s[1..][p..])
  {}

  lemma WithoutSize<K, V>(s: seq<Entry<K, V>>, k: K)
    requires Distinct(Keys(s))
    ensures |Without(s, k)| == if Find(s, k).Some? then |s| - 1 else |s|
    ensures Find(s, k).None? ==> Without(s, k) == s
  {
    KeysWithout(s, k);
    DropDistinct(Keys(s), k);
    assert |Keys(Without(s, k))| == |Without(s, k)|;
  }

  lemma KeysToFront<K, V>(s: seq<Entry<K, V>>, k: K, v: V, n: nat)
    ensures Keys(Take([Entry(k, v)] + Without(s, k), n)) == Take([k] + Drop(Keys(s), k), n)
  {
    KeysWithout(s, k);
    var t := [Entry(k, v)] + Without(s, k);
    assert t[1..] == Without(s, k);
    KeysTake(t, n);
  }

  // A hit is an access whose result fits without dropping anything.
  lemma HitFits<K, V>(s: seq<Entry<K, V>>, k: K, capacity: nat)
    requires Distinct(Keys(s)) && |s| <= capacity && Find(s, k).Some?
    ensures Step(s, Get(k), capacity) == Take([Entry(k, Find(s, k).value)] + Without(s, k), capacity)
  {
    WithoutSize(s, k);
  }

  // An access moves its key to the front of the keys, within capacity.
  lemma StepKeys<K, V>(s: seq<Entry<K, V>>, op: Op<K, V>, capacity: nat)
    requires Distinct(Keys(s)) && |s| <= capacity && Accesses(s, op)
    ensures Keys(Step(s, op, capacity)) == Take([op.key] + Drop(Keys(s), op.key), capacity)
  {
    if op.Get? {
      HitFits(s, op.key, capacity);
      KeysToFront(s, op.key, Find(s, op.key).value, capacity);
    } else {
      KeysToFront(s, op.key, op.value, capacity);
    }
  }

  lemma StepInvariant<K, V>(s: seq<Entry<K, V>>, op: Op<K, V>, capacity: nat)
    requires Distinct(Keys(s)) && |s| <= capacity
    ensures Distinct(Keys(Step(s, op, capacity))) && |Step(s, op, capacity)| <= capacity
  {
    if Accesses(s, op) {
      StepKeys(s, op, capacity);
      DropDistinct(Keys(s), op.key);
      DistinctTake([op.key] + Drop(Keys(s), op.key), capacity);
      assert |Keys(Step(s, op, capacity))| == |Step(s, op, capacity)|;
    }
  }

  // Every run keeps the list within capacity and its keys distinct.
  lemma {:induction false} RunInvariant<K, V>(trace: seq<Op<K, V>>, capacity: nat)
    ensures |Run(trace, capacity)| <= capacity
    ensures Distinct(Keys(Run(trace, capacity)))
  {
    if trace == [] {
    } else {
      RunInvariant(trace[..|trace| - 1], capacity);
      StepInvariant(Run(trace[..|trace| - 1], capacity), trace[|trace| - 1], capacity);
    }
  }

  // ---- inclusion: more capacity never turns a hit into a miss ----

  // s is a subsequence of t: entries of t in the same order, with gaps.
  ghost predicate Subsequence<T>(s: seq<T>, t: seq<T>) {
    s == [] || (t != [] && ((s[0] == t[0] && Subsequence(s[1..], t[1..])) || Subsequence(s, t[1..])))
  }

  lemma {:induction false} SubsequenceSize<T>(s: seq<T>, t: seq<T>)
    requires Subsequence(s, t)
    ensures |s| <= |t| && (|s| == |t| ==> s == t)
    ensures forall x :: x in s ==> x in t
  {
    if s == [] {
    } else {
      assert t == [t[0]] + t[1..] && s == [s[0]] + s[1..];
      if s[0] == t[0] && Subsequence(s[1..], t[1..]) {
        SubsequenceSize(s[1..], t[1..]);
      } else {
        SubsequenceSize(s, t[1..]);
      }
    }
  }

  lemma SubsequenceCons<T>(s: seq<T>, t: seq<T>, x: T)
    requires Subsequence(s, t)
    ensures Subsequence(s, [x] + t) && Subsequence([x] + s, [x] + t)
  {
    assert ([x] + t)[1..] == t && ([x] + s)[1..] == s;
  }

  lemma {:induction false} SubsequenceButLast<T>(s: seq<T>, t: seq<T>)
    requires Subsequence(s, t) && s != []
    ensures t != [] && Subsequence(s[..|s| - 1], t[..|t| - 1])
  {
    assert |t| > 1 ==> t[1..][..|t| - 2] == t[..|t| - 1][1..];
    if s[0] == t[0] && Subsequence(s[1..], t[1..]) {
      if |s| > 1 {
        SubsequenceButLast(s[1..], t[1..]);
        assert s[1..][..|s| - 2] == s[..|s| - 1][1..];
      }
    } else {
      SubsequenceButLast(s, t[1..]);
    }
  }

  lemma {:induction false} SubsequenceSnoc<T>(s: seq<T>, t: seq<T>, x: T)
    requires Subsequence(s, t)
    ensures Subsequence(s, t + [x])
  {
    if s == [] {
    } else {
      assert (t + [x])[1..] == t[1..] + [x];
      if s[0] == t[0] && Subsequence(s[1..], t[1..]) {
        SubsequenceSnoc(s[1..], t[1..], x);
      } else {
        SubsequenceSnoc(s, t[1..], x);
      }
    }
  }

  lemma {:induction false} SubsequenceWithout<K, V>(s: seq<Entry<K, V>>, t: seq<Entry<K, V>>, k: K)
    requires Subsequence(s, t)
    ensures Subsequence(Without(s, k), Without(t, k))
  {
    if s == [] {
    } else {
      if s[0] == t[0] && Subsequence(s[1..], t[1..]) {
        SubsequenceWithout(s[1..], t[1..], k);
        SubsequenceCons(Without(s[1..], k), Without(t[1..], k), t[0]);
      } else {
        SubsequenceWithout(s, t[1..], k);
        SubsequenceCons(Without(s, k), Without(t[1..], k), t[0]);
      }
    }
  }

  // Cutting one entry off the smaller list, and perhaps one off the larger.
  lemma SubsequenceTake<T>(s: seq<T>, t: seq<T>, c: nat, c': nat)
    requires Subsequence(s, t) && |s| <= c + 1 && |t| <= c' + 1
    requires |t| > c' ==> |s| > c
    ensures Subsequence(Take(s, c), Take(t, c'))
  {
    if |s| > c {
      SubsequenceButLast(s, t);
      SubsequenceSnoc(s[..c], t[..|t| - 1], t[|t| - 1]);
      assert t == t[..|t| - 1] + [t[|t| - 1]];
    }
  }

  // The smaller cache holds a subsequence of the larger one, and is either
  // full or has lost nothing the larger one still holds.
  ghost predicate Included<K, V>(s: seq<Entry<K, V>>, t: seq<Entry<K, V>>, c: nat, c': nat) {
    && Distinct(Keys(s)) && Distinct(Keys(t))
    && |s| <= c && |t| <= c'
    && Subsequence(s, t)
    && (|s| == c || |s| == |t|)
  }

  lemma FindMember<K, V>(s: seq<Entry<K, V>>, t: seq<Entry<K, V>>, k: K)
    requires Distinct(Keys(s)) && Distinct(Keys(t)) && Subsequence(s, t)
    ensures Find(s, k).Some? ==> Find(t, k) == Find(s, k)
  {
    KeysWithout(s, k);
    if k in Keys(s) {
      var p :| 0 <= p < |s| && Keys(s)[p] == k;
      WithoutSplit(s, p);
      SubsequenceSize(s, t);
      assert s[p] in t;
      var q :| 0 <= q < |t| && t[q] == s[p];
      WithoutSplit(t, q);
    }
  }

  lemma IncludedSet<K, V>(s: seq<Entry<K, V>>, t: seq<Entry<K, V>>, k: K, v: V, c: nat, c': nat)
    requires c <= c' && Included(s, t, c, c')
    ensures var s', t' := Step(s, Set(k, v), c), Step(t, Set(k, v), c');
      Subsequence(s', t') && (|s'| == c || |s'| == |t'|)
  {
    FindMember(s, t, k);
    WithoutSize(s, k);
    WithoutSize(t, k);
    SubsequenceSize(s, t);
    SubsequenceWithout(s, t, k);
    SubsequenceCons(Without(s, k), Without(t, k), Entry(k, v));
    SubsequenceTake([Entry(k, v)] + Without(s, k), [Entry(k, v)] + Without(t, k), c, c');
  }

  lemma IncludedStep<K, V>(s: seq<Entry<K, V>>, t: seq<Entry<K, V>>, op: Op<K, V>, c: nat, c': nat)
    requires c <= c' && Included(s, t, c, c')
    ensures Included(Step(s, op, c), Step(t, op, c'), c, c')
  {
    StepInvariant(s, op, c);
    StepInvariant(t, op, c');
    match op
    case Set(k, v) => IncludedSet(s, t, k, v, c, c');
    case Get(k) =>
      FindMember(s, t, k);
      WithoutSize(s, k);
      WithoutSize(t, k);
      SubsequenceSize(s, t);
      SubsequenceWithout(s, t, k);
      if Find(t, k).Some? {
        SubsequenceCons(Without(s, k), Without(t, k), Entry(k, Find(t, k).value));
      }
  }

  // Over any trace, the smaller cache's list is a subsequence of the larger's.
  lemma {:induction false} InclusionOverRuns<K, V>(trace: seq<Op<K, V>>, c: nat, c': nat)
    requires c <= c'
    ensures Included(Run(trace, c), Run(trace, c'), c, c')
  {
    if trace == [] {
    } else {
      InclusionOverRuns(trace[..|trace| - 1], c, c');
      IncludedStep(Run(trace[..|trace| - 1], c), Run(trace[..|trace| - 1], c'), trace[|trace| - 1], c, c');
    }
  }

  // So a hit at capacity c is a hit with the same value at every larger one.
  lemma MoreCapacityKeepsHits<K, V>(trace: seq<Op<K, V>>, k: K, c: nat, c': nat)
    requires c <= c'
    requires Find(Run(trace, c), k).Some?
    ensures Find(Run(trace, c'), k) == Find(Run(trace, c), k)
  {
    InclusionOverRuns(trace, c, c');
    FindMember(Run(trace, c), Run(trace, c'), k);
  }

  // ---- reuse distance ----

  // The part of a log after the last occurrence of k.
  function Since<K(==)>(log: seq<K>, k: K): seq<K> {
    if log == [] || log[|log| - 1] == k then [] else Since(log[..|log| - 1], k) + [log[|log| - 1]]
  }

  lemma {:induction false} SinceIsSuffix<K>(log: seq<K>, k: K)
    ensures k !in Since(log, k)
    ensures |Since(log, k)| <= |log| && Since(log, k) == log[|log| - |Since(log, k)|..]
    ensures k in log ==> |Since(log, k)| < |log| && log[|log| - |Since(log, k)| - 1] == k
  {
    if log == [] || log[|log| - 1] == k {
    } else {
      var n := |log| - 1;
      var since := Since(log[..n], k);
      SinceIsSuffix(log[..n], k);
      assert log == log[..n] + [log[n]];
      assert log[n - |since|..] == log[..n][n - |since|..] + [log[n]];
    }
  }

  function ToSet<K>(s: seq<K>): set<K> {
    set x | x in s
  }

  // Number of distinct other keys accessed since k's last access.
  function ReuseDistance<K(==)>(log: seq<K>, k: K): nat {
    |ToSet(Since(log, k))|
  }

  // All keys of a log, most recently accessed first.
  function ByRecency<K(==)>(log: seq<K>): seq<K> {
    if log == [] then []
    else [log[|log| - 1]] + Drop(ByRecency(log[..|log| - 1]), log[|log| - 1])
  }

  // The part of r before the first occurrence of k.
  function Before<K(==)>(r: seq<K>, k: K): seq<K> {
    if r == [] || r[0] == k then [] else [r[0]] + Before(r[1..], k)
  }

  lemma {:induction false} ByRecencyKeys<K>(log: seq<K>)
    ensures Distinct(ByRecency(log))
    ensures forall k :: k in ByRecency(log) <==> k in log
  {
    if log == [] {
    } else {
      var init, x := log[..|log| - 1], log[|log| - 1];
      ByRecencyKeys(init);
      DropDistinct(ByRecency(init), x);
      DropMembers(ByRecency(init), x);
      assert log == init + [x];
    }
  }

  lemma {:induction false} BeforeDrop<K>(r: seq<K>, k: K, x: K)
    requires x != k
    ensures ToSet(Before(Drop(r, x), k)) == ToSet(Before(r, k)) - {x}
  {
    if r != [] && r[0] != k {
      BeforeDrop(r[1..], k, x);
      if r[0] != x {
        assert Drop(r, x)[1..] == Drop(r[1..], x);
        assert ToSet(Before(Drop(r, x), k)) == {r[0]} + ToSet(Before(Drop(r[1..], x), k));
      }
      assert ToSet(Before(r, k)) == {r[0]} + ToSet(Before(r[1..], k));
    }
  }

  // The keys more recent than k are those accessed since k.
  lemma {:induction false} BeforeIsSince<K>(log: seq<K>, k: K)
    ensures ToSet(Since(log, k)) == ToSet(Before(ByRecency(log), k))
  {
    if log != [] && log[|log| - 1] != k {
      var init, x := log[..|log| - 1], log[|log| - 1];
      BeforeIsSince(init, k);
      BeforeDrop(ByRecency(init), k, x);
      var rest := Drop(ByRecency(init), x);
      assert ByRecency(log)[1..] == rest;
      assert ToSet(Before(ByRecency(log), k)) == {x} + ToSet(Before(rest, k));
      assert ToSet(Since(log, k)) == ToSet(Since(init, k)) + {x};
    }
  }

  lemma {:induction false} DistinctSize<K>(s: seq<K>)
    requires Distinct(s)
    ensures |ToSet(s)| == |s|
  {
    if s == [] {
    } else {
      DistinctSize(s[1..]);
      assert ToSet(s) == {s[0]} + ToSet(s[1..]);
    }
  }

  lemma {:induction false} BeforeDistinct<K>(r: seq<K>, k: K)
    requires Distinct(r)
    ensures Distinct(Before(r, k)) && forall x :: x in Before(r, k) ==> x in r
  {
    if r != [] && r[0] != k {
      BeforeDistinct(r[1..], k);
      assert Before(r, k)[1..] == Before(r[1..], k);
    }
  }

  // k is among the first n iff fewer than n elements stand before it.
  lemma {:induction false} InTake<K>(r: seq<K>, k: K, n: nat)
    ensures k in Take(r, n) <==> k in r && |Before(r, k)| < n
  {
    if r == [] {
    } else {
      assert r == [r[0]] + r[1..];
      if n > 0 {
        InTake(r[1..], k, n - 1);
        assert Take(r, n) == [r[0]] + Take(r[1..], n - 1);
      }
    }
  }

  lemma {:induction false} DropTake<K>(r: seq<K>, k: K, n: nat)
    requires n > 0 && Distinct(r)
    ensures Take(Drop(Take(r, n), k), n - 1) == Take(Drop(r, k), n - 1)
  {
    if r == [] {
    } else {
      assert Take(r, n) == [r[0]] + Take(r[1..], n - 1);
      if r[0] == k {
        DropMembers(r[1..], k);
        DropMembers(Take(r[1..], n - 1), k);
        InTake(r[1..], k, n - 1);
      } else if n > 1 {
        DropTake(r[1..], k, n - 1);
        assert Take(Drop(r, k), n - 1) == [r[0]] + Take(Drop(r[1..], k), n - 2);
        assert Take(Drop(Take(r, n), k), n - 1) == [r[0]] + Take(Drop(Take(r[1..], n - 1), k), n - 2);
      }
    }
  }

  lemma TakeToFront<K>(r: seq<K>, k: K, n: nat)
    requires Distinct(r)
    ensures Take([k] + Drop(Take(r, n), k), n) == Take([k] + Drop(r, k), n)
  {
    if n > 0 {
      DropTake(r, k, n);
      assert Take([k] + Drop(Take(r, n), k), n) == [k] + Take(Drop(Take(r, n), k), n - 1);
      assert Take([k] + Drop(r, k), n) == [k] + Take(Drop(r, k), n - 1);
    }
  }

  // The cache holds exactly the `capacity` most recently accessed keys.
  lemma {:induction false} RunIsMostRecent<K, V>(trace: seq<Op<K, V>>, capacity: nat)
    ensures Keys(Run(trace, capacity)) == Take(ByRecency(AccessLog(trace, capacity)), capacity)
  {
    if trace == [] {
    } else {
      var init, op := trace[..|trace| - 1], trace[|trace| - 1];
      RunIsMostRecent(init, capacity);
      RunInvariant(init, capacity);
      var s, log := Run(init, capacity), AccessLog(init, capacity);
      ByRecencyKeys(log);
      if Accesses(s, op) {
        StepKeys(s, op, capacity);
        assert (log + [op.key])[..|log|] == log;
        TakeToFront(ByRecency(log), op.key, capacity);
      } else {
        assert log + [] == log;
      }
    }
  }

  lemma {:induction false} FindWithout<K, V>(s: seq<Entry<K, V>>, x: K, k: K)
    ensures Find(Without(s, x), k) == if k == x then None else Find(s, k)
  {
    if s == [] {
    } else {
      FindWithout(s[1..], x, k);
      assert s[0].key != x ==> Without(s, x)[1..] == Without(s[1..], x);
    }
  }

  lemma {:induction false} FindTake<K, V>(s: seq<Entry<K, V>>, k: K, n: nat)
    ensures Find(Take(s, n), k).Some? ==> Find(Take(s, n), k) == Find(s, k)
  {
    if s != [] && n > 0 {
      FindTake(s[1..], k, n - 1);
      assert Take(s, n)[1..] == Take(s[1..], n - 1);
    }
  }

  // Whatever is cached is the value last set.
  lemma {:induction false} CachedIsLastSet<K, V>(trace: seq<Op<K, V>>, k: K, capacity: nat)
    ensures Find(Run(trace, capacity), k).Some? ==> Find(Run(trace, capacity), k) == LastSet(trace, k)
  {
    if trace == [] {
    } else {
      var init, op := trace[..|trace| - 1], trace[|trace| - 1];
      CachedIsLastSet(init, k, capacity);
      var s := Run(init, capacity);
      FindWithout(s, op.key, k);
      if Accesses(s, op) {
        var t := [Entry(op.key, if op.Set? then op.value else Find(s, op.key).value)] + Without(s, op.key);
        assert t[1..] == Without(s, op.key);
        FindTake(t, k, capacity);
      }
    }
  }

  lemma {:induction false} AccessedWasSet<K, V>(trace: seq<Op<K, V>>, k: K, capacity: nat)
    ensures k in AccessLog(trace, capacity) ==> LastSet(trace, k).Some?
  {
    if trace == [] {
    } else {
      AccessedWasSet(trace[..|trace| - 1], k, capacity);
      CachedIsLastSet(trace[..|trace| - 1], k, capacity);
    }
  }

  // Every set is an access.
  lemma {:induction false} SetWasAccessed<K, V>(trace: seq<Op<K, V>>, k: K, capacity: nat)
    ensures LastSet(trace, k).Some? ==> k in AccessLog(trace, capacity)
  {
    if trace == [] {
    } else {
      SetWasAccessed(trace[..|trace| - 1], k, capacity);
    }
  }

  // A key is cached after a run exactly when it was set and fewer than
  // `capacity` distinct other keys were accessed since its last access; its
  // value is the one last set.
  lemma ReuseDistanceDecidesHits<K, V>(trace: seq<Op<K, V>>, k: K, capacity: nat)
    ensures var log := AccessLog(trace, capacity);
      Find(Run(trace, capacity), k) ==
      if LastSet(trace, k).Some? && ReuseDistance(log, k) < capacity then LastSet(trace, k) else None
    ensures k in AccessLog(trace, capacity) <==> LastSet(trace, k).Some?
  {
    SetWasAccessed(trace, k, capacity);
    var log := AccessLog(trace, capacity);
    RunIsMostRecent(trace, capacity);
    KeysWithout(Run(trace, capacity), k);
    CachedIsLastSet(trace, k, capacity);
    AccessedWasSet(trace, k, capacity);
    ByRecencyKeys(log);
    BeforeIsSince(log, k);
    BeforeDistinct(ByRecency(log), k);
    DistinctSize(Before(ByRecency(log), k));
    InTake(ByRecency(log), k, capacity);
  }
}
