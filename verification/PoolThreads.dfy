/**
  Any number of threads using one ConnectionPool. The critical sections of
  clean, get and put are the atomic steps; get_http_connection lets go of the
  mutex between cleaning and fetching, so other threads' steps may fall in
  between. A thread puts back or closes only connections it owns.
*/
module PoolThreads {
  import opened Wrappers
  import opened PoolQueues
  import opened ConnectionPools

  datatype State<K, C, T> = State(
    pool: map<K, seq<C>>,    // the connections queued under each key
    held: map<T, set<C>>,    // those each thread has in hand
    gone: set<C>,            // those discarded as stale, or closed
    created: set<C>)         // all that were ever opened

  datatype Action<K, C, T> =
    | CleanAll(drop: map<K, nat>)
    | GetConn(thread: T, key: K, dropped: nat, found: nat)
    | PutConn(thread: T, key: K, conn: C)
    | Open(thread: T, conn: C)
    | Close(thread: T, conn: C)

  function Held<K, C, T(==)>(s: State<K, C, T>, t: T): set<C> {
    if t in s.held then s.held[t] else {}
  }

  // The first n of a queue.
  function Front<C>(q: seq<C>, n: nat): set<C> {
    set i | 0 <= i < n && i < |q| :: q[i]
  }

  predicate Enabled<K, C, T(==)>(s: State<K, C, T>, a: Action<K, C, T>) {
    match a
    case CleanAll(drop) => forall k :: k in s.pool ==> k in drop && drop[k] <= |s.pool[k]|
    case GetConn(_, key, dropped, _) => key in s.pool && dropped <= |s.pool[key]|
    case PutConn(t, _, c) => c in Held(s, t)
    case Open(_, c) => c !in s.created
    case Close(t, c) => c in Held(s, t)
  }

  // Cleaning drops a prefix of every queue and removes the emptied ones.
  function CleanConns<K, C>(pool: map<K, seq<C>>, drop: map<K, nat>): map<K, seq<C>>
    requires forall k :: k in pool ==> k in drop && drop[k] <= |pool[k]|
  {
    map k | k in pool && drop[k] < |pool[k]| :: pool[k][drop[k]..]
  }

  // Fetching from what is left of a queue, as in PoolQueues.Took.
  function Fetch<C>(s: seq<C>, found: nat): (Option<C>, seq<C>) {
    if found < |s| then (Some(s[found]), s[found + 1..] + s[..found]) else (None, s)
  }

  function Next<K, C, T(==)>(s: State<K, C, T>, a: Action<K, C, T>): State<K, C, T>
    requires Enabled(s, a)
  {
    match a
    case CleanAll(drop) =>
      s.(pool := CleanConns(s.pool, drop),
         gone := s.gone + set k, i | k in s.pool && 0 <= i < drop[k] :: s.pool[k][i])
    case GetConn(t, key, dropped, found) =>
      var q := s.pool[key];
      var (r, rest) := Fetch(q[dropped..], found);
      s.(pool := s.pool[key := rest],
         held := if r.Some? then s.held[t := Held(s, t) + {r.value}] else s.held,
         gone := s.gone + Front(q, dropped))
    case PutConn(t, key, c) =>
      s.(pool := s.pool[key := (if key in s.pool then s.pool[key] else []) + [c]],
         held := s.held[t := Held(s, t) - {c}])
    case Open(t, c) =>
      s.(held := s.held[t := Held(s, t) + {c}], created := s.created + {c})
    case Close(t, c) =>
      s.(held := s.held[t := Held(s, t) - {c}], gone := s.gone + {c})
  }

  function Initial<K, C, T>(): State<K, C, T> {
    State(map[], map[], {}, {})
  }

  // ---- where a connection is ----

  datatype Place<K, T> = Slot(key: K, index: nat) | HeldBy(thread: T) | Discarded

  predicate At<K, C, T(==)>(s: State<K, C, T>, c: C, p: Place<K, T>) {
    match p
    case Slot(k, i) => k in s.pool && i < |s.pool[k]| && s.pool[k][i] == c
    case HeldBy(t) => c in Held(s, t)
    case Discarded => c in s.gone
  }

  // No connection is in two places.
  ghost predicate OnePlace<K(!new), C(!new), T(!new)>(s: State<K, C, T>) {
    forall c, p, q :: At(s, c, p) && At(s, c, q) ==> p == q
  }

  // Every connection opened is somewhere, and nothing else is anywhere.
  ghost predicate Conserved<K(!new), C(!new), T(!new)>(s: State<K, C, T>) {
    && (forall c, p :: At(s, c, p) ==> c in s.created)
    && (forall c :: c in s.created ==> exists p :: At(s, c, p))
  }

  ghost predicate Invariant<K(!new), C(!new), T(!new)>(s: State<K, C, T>) {
    OnePlace(s) && Conserved(s)
  }

  ghost function CleanOrigin<K(!new), C(!new), T(!new)>(s: State<K, C, T>, drop: map<K, nat>, c: C, p: Place<K, T>): (o: Place<K, T>)
    requires Enabled(s, CleanAll(drop)) && At(Next(s, CleanAll(drop)), c, p)
    ensures At(s, c, o)
  {
    match p
    case Slot(k, i) => Slot(k, i + drop[k])
    case HeldBy(_) => p
    case Discarded =>
      if c in s.gone then p
      else var k, i :| k in s.pool && 0 <= i < drop[k] && s.pool[k][i] == c; Slot(k, i)
  }

  ghost function GetOrigin<K(!new), C(!new), T(!new)>(s: State<K, C, T>, t: T, key: K, dropped: nat, found: nat, c: C, p: Place<K, T>)
    : (o: Place<K, T>)
    requires Enabled(s, GetConn(t, key, dropped, found)) && At(Next(s, GetConn(t, key, dropped, found)), c, p)
    ensures At(s, c, o)
  {
    var n := |s.pool[key]| - dropped;
    match p
    case Slot(k, i) =>
      if k != key then p
      else if found >= n then Slot(k, dropped + i)
      else if i < n - found - 1 then Slot(k, dropped + found + 1 + i)
      else Slot(k, dropped + i - (n - found - 1))
    case HeldBy(t') => if c in Held(s, t') then p else Slot(key, dropped + found)
    case Discarded =>
      if c in s.gone then p
      else var i :| 0 <= i < dropped && s.pool[key][i] == c; Slot(key, i)
  }

  // Where the connection that is at p after a step was before it.
  ghost function Origin<K(!new), C(!new), T(!new)>(s: State<K, C, T>, a: Action<K, C, T>, c: C, p: Place<K, T>): (o: Place<K, T>)
    requires Enabled(s, a) && At(Next(s, a), c, p) && !(a.Open? && c == a.conn)
    ensures At(s, c, o)
  {
    match a
    case CleanAll(drop) => CleanOrigin(s, drop, c, p)
    case GetConn(t, key, dropped, found) => GetOrigin(s, t, key, dropped, found, c, p)
    case PutConn(t, key, c') =>
      if p.Slot? && !At(s, c, p) then HeldBy(t) else p
    case Open(_, _) => p
    case Close(t, c') => if p.Discarded? && c !in s.gone then HeldBy(t) else p
  }

  lemma CleanInjective<K(!new), C(!new), T(!new)>(s: State<K, C, T>, drop: map<K, nat>, c: C, p: Place<K, T>, q: Place<K, T>)
    requires OnePlace(s) && Enabled(s, CleanAll(drop))
    requires At(Next(s, CleanAll(drop)), c, p) && At(Next(s, CleanAll(drop)), c, q)
    ensures p == q
  {
    assert CleanOrigin(s, drop, c, p) == CleanOrigin(s, drop, c, q);
  }

  lemma GetInjective<K(!new), C(!new), T(!new)>(s: State<K, C, T>, t: T, key: K, dropped: nat, found: nat, c: C,
                                                p: Place<K, T>, q: Place<K, T>)
    requires OnePlace(s) && Enabled(s, GetConn(t, key, dropped, found))
    requires At(Next(s, GetConn(t, key, dropped, found)), c, p) && At(Next(s, GetConn(t, key, dropped, found)), c, q)
    ensures p == q
  {
    assert GetOrigin(s, t, key, dropped, found, c, p) == GetOrigin(s, t, key, dropped, found, c, q);
  }

  // Different places come from different places.
  lemma OriginInjective<K(!new), C(!new), T(!new)>(s: State<K, C, T>, a: Action<K, C, T>, c: C, p: Place<K, T>, q: Place<K, T>)
    requires OnePlace(s) && Enabled(s, a) && !(a.Open? && c == a.conn)
    requires At(Next(s, a), c, p) && At(Next(s, a), c, q)
    ensures p == q
  {
    match a
    case CleanAll(drop) => CleanInjective(s, drop, c, p, q);
    case GetConn(t, key, dropped, found) => GetInjective(s, t, key, dropped, found, c, p, q);
    case _ => assert Origin(s, a, c, p) == Origin(s, a, c, q);
  }

  ghost function GetDestination<K(!new), C(!new), T(!new)>(s: State<K, C, T>, t: T, key: K, dropped: nat, found: nat, c: C,
                                                           p: Place<K, T>): (d: Place<K, T>)
    requires Enabled(s, GetConn(t, key, dropped, found)) && At(s, c, p)
    ensures At(Next(s, GetConn(t, key, dropped, found)), c, d)
  {
    var n := |s.pool[key]| - dropped;
    if !p.Slot? || p.key != key then p
    else if p.index < dropped then Discarded
    else if found >= n then Slot(key, p.index - dropped)
    else if p.index - dropped == found then HeldBy(t)
    else if p.index - dropped > found then Slot(key, p.index - dropped - found - 1)
    else Slot(key, p.index - dropped + (n - found - 1))
  }

  // Where the connection that is at p before a step is after it.
  ghost function Destination<K(!new), C(!new), T(!new)>(s: State<K, C, T>, a: Action<K, C, T>, c: C, p: Place<K, T>): (d: Place<K, T>)
    requires Enabled(s, a) && At(s, c, p)
    ensures At(Next(s, a), c, d)
  {
    match a
    case CleanAll(drop) =>
      if p.Slot? then (if p.index < drop[p.key] then Discarded else Slot(p.key, p.index - drop[p.key])) else p
    case GetConn(t, key, dropped, found) => GetDestination(s, t, key, dropped, found, c, p)
    case PutConn(t, key, c') =>
      if p == HeldBy(t) && c == c' then Slot(key, if key in s.pool then |s.pool[key]| else 0) else p
    case Open(_, _) => p
    case Close(t, c') => if p == HeldBy(t) && c == c' then Discarded else p
  }

  // ---- every step, and every run, keeps the invariant ----

  lemma StepKeepsOnePlace<K(!new), C(!new), T(!new)>(s: State<K, C, T>, a: Action<K, C, T>)
    requires Invariant(s) && Enabled(s, a)
    ensures OnePlace(Next(s, a))
  {
    forall c, p, q | At(Next(s, a), c, p) && At(Next(s, a), c, q) ensures p == q {
      if a.Open? && c == a.conn {
        OpenedIsHeld(s, a.thread, c, p);
        OpenedIsHeld(s, a.thread, c, q);
      } else {
        OriginInjective(s, a, c, p, q);
      }
    }
  }

  // A newly opened connection is only with the thread that opened it.
  lemma OpenedIsHeld<K(!new), C(!new), T(!new)>(s: State<K, C, T>, t: T, c: C, p: Place<K, T>)
    requires Conserved(s) && c !in s.created && At(Next(s, Open(t, c)), c, p)
    ensures p == HeldBy(t)
  {
    if p != HeldBy(t) {
      assert At(s, c, p);
    }
  }

  lemma StepKeepsConserved<K(!new), C(!new), T(!new)>(s: State<K, C, T>, a: Action<K, C, T>)
    requires Invariant(s) && Enabled(s, a)
    ensures Conserved(Next(s, a))
  {
    var s' := Next(s, a);
    forall c, p | At(s', c, p) ensures c in s'.created {
      if !(a.Open? && c == a.conn) {
        assert At(s, c, Origin(s, a, c, p));
      }
    }
    forall c | c in s'.created ensures exists p :: At(s', c, p) {
      if a.Open? && c == a.conn {
        assert At(s', c, HeldBy(a.thread));
      } else {
        var p :| At(s, c, p);
        assert At(s', c, Destination(s, a, c, p));
      }
    }
  }

  predicate AllEnabled<K, C, T(==)>(s: State<K, C, T>, actions: seq<Action<K, C, T>>)
    decreases actions
  {
    actions == [] || (Enabled(s, actions[0]) && AllEnabled(Next(s, actions[0]), actions[1..]))
  }

  function Run<K, C, T(==)>(s: State<K, C, T>, actions: seq<Action<K, C, T>>): State<K, C, T>
    requires AllEnabled(s, actions)
    decreases actions
  {
    if actions == [] then s else Run(Next(s, actions[0]), actions[1..])
  }

  lemma {:induction false} RunKeepsInvariant<K(!new), C(!new), T(!new)>(s: State<K, C, T>, actions: seq<Action<K, C, T>>)
    requires Invariant(s) && AllEnabled(s, actions)
    ensures Invariant(Run(s, actions))
    decreases actions
  {
    if actions == [] {
    } else {
      StepKeepsOnePlace(s, actions[0]);
      StepKeepsConserved(s, actions[0]);
      RunKeepsInvariant(Next(s, actions[0]), actions[1..]);
    }
  }

  // In every interleaving from an empty pool each connection ever opened is in
  // exactly one place: one slot of one queue, one thread's hands, or discarded.
  lemma EveryInterleavingKeepsOnePlace<K(!new), C(!new), T(!new)>(actions: seq<Action<K, C, T>>, c: C)
    requires AllEnabled(Initial<K, C, T>(), actions)
    ensures var s := Run(Initial<K, C, T>(), actions);
      if c in s.created then exists p :: At(s, c, p) && forall q :: At(s, c, q) ==> q == p
      else forall p :: !At(s, c, p)
  {
    var s := Run(Initial<K, C, T>(), actions);
    assert Invariant(Initial<K, C, T>());
    RunKeepsInvariant(Initial<K, C, T>(), actions);
    if c in s.created {
      var p :| At(s, c, p);
      assert forall q :: At(s, c, q) ==> q == p;
    }
  }

  // ---- the steps are what the pool's methods do ----

  function ConnsOf<K, C>(qs: map<K, seq<Entry<C>>>): map<K, seq<C>> {
    map k | k in qs :: Conns(qs[k])
  }

  // ConnectionPool.clean is a CleanAll step.
  lemma CleanIsStep<K, C>(before: map<K, seq<Entry<C>>>, after: map<K, seq<Entry<C>>>, duration: real, clock: Clock,
                          started: map<K, nat>, from: nat, to: nat) returns (drop: map<K, nat>)
    requires CleanedPools(before, after, duration, clock, started, from, to)
    ensures forall k :: k in ConnsOf(before) ==> k in drop && drop[k] <= |ConnsOf(before)[k]|
    ensures ConnsOf(after) == CleanConns(ConnsOf(before), drop)
  {
    drop := map k | k in before :: DropCount(before[k], duration, clock, started[k]);
    forall k | k in before ensures DropsFront(before, after, k, drop[k]) {
      KeyCleaned(before, after, duration, clock, started, from, to, k);
    }
    SameQueues(before, after, drop);
  }

  // The queue of k loses its first n, and its pool goes if these were all.
  ghost predicate DropsFront<K, C>(before: map<K, seq<Entry<C>>>, after: map<K, seq<Entry<C>>>, k: K, n: nat)
    requires k in before
  {
    && n <= |before[k]| && (k in after <==> n < |before[k]|)
    && (k in after ==> Conns(after[k]) == Conns(before[k])[n..])
  }

  lemma KeyCleaned<K, C>(before: map<K, seq<Entry<C>>>, after: map<K, seq<Entry<C>>>, duration: real, clock: Clock,
                         started: map<K, nat>, from: nat, to: nat, k: K)
    requires CleanedPools(before, after, duration, clock, started, from, to) && k in before
    ensures DropsFront(before, after, k, DropCount(before[k], duration, clock, started[k]))
  {
    CleanIsSuffix(before[k], duration, clock, started[k]);
  }

  lemma SameQueues<K, C>(before: map<K, seq<Entry<C>>>, after: map<K, seq<Entry<C>>>, drop: map<K, nat>)
    requires after.Keys <= before.Keys && before.Keys <= drop.Keys
    requires forall k :: k in before ==> DropsFront(before, after, k, drop[k])
    ensures forall k :: k in ConnsOf(before) ==> k in drop && drop[k] <= |ConnsOf(before)[k]|
    ensures ConnsOf(after) == CleanConns(ConnsOf(before), drop)
  {
    var l, r := ConnsOf(after), CleanConns(ConnsOf(before), drop);
    forall k ensures k in l <==> k in r {
      assert k in before ==> DropsFront(before, after, k, drop[k]);
    }
    forall k | k in l ensures l[k] == r[k] {
      assert DropsFront(before, after, k, drop[k]);
    }
  }

  function DropCount<C>(q: seq<Entry<C>>, duration: real, clock: Clock, tick: nat): (n: nat)
    ensures n <= |q|
  {
    CleanIsSuffix(q, duration, clock, tick);
    |q| - |Clean(q, duration, clock, tick).0|
  }

  // The fetch of ConnectionPool.get_http_connection is a GetConn step.
  lemma GetIsStep<K, C>(qs: map<K, seq<Entry<C>>>, key: K, duration: real, clock: Clock, tick: nat, ready: (C, nat) -> bool)
    returns (dropped: nat, found: nat)
    requires key in qs
    ensures var (r, q, _) := Get(qs[key], duration, clock, tick, ready);
      && dropped <= |qs[key]|
      && (r, ConnsOf(qs[key := q])) ==
         (Fetch(ConnsOf(qs)[key][dropped..], found).0, ConnsOf(qs)[key := Fetch(ConnsOf(qs)[key][dropped..], found).1])
  {
    dropped, found := GetTakes(qs[key], duration, clock, tick, ready);
    var g := Get(qs[key], duration, clock, tick, ready);
    assert Took(Conns(qs[key]), g.0, Conns(g.1), dropped, found);
    assert ConnsOf(qs[key := g.1]) == ConnsOf(qs)[key := Conns(g.1)];
  }

  // ConnectionPool.put_http_connection is the queueing of a PutConn step.
  lemma PutIsStep<K, C>(qs: map<K, seq<Entry<C>>>, key: K, c: C, now: real)
    ensures ConnsOf(qs[key := (if key in qs then qs[key] else []) + [Entry(c, now)]])
      == ConnsOf(qs)[key := (if key in ConnsOf(qs) then ConnsOf(qs)[key] else []) + [c]]
  {
    var q := if key in qs then qs[key] else [];
    ConnsAppend(q, [Entry(c, now)]);
    assert Conns([Entry(c, now)]) == [c];
    assert ConnsOf(qs[key := q + [Entry(c, now)]]) == ConnsOf(qs)[key := Conns(q) + [c]];
  }
}
