/**
  The mutable pools of boto.connection: HostConnectionPool and ConnectionPool,
  proved against the queue functions of PoolQueues.
*/
module ConnectionPools {
  import opened Wrappers
  import opened PoolQueues

  // time.time(): each call takes the next reading of the clock.
  class TimeSource {
    const reading: Clock
    var ticks: nat

    constructor (reading: Clock)
      ensures this.reading == reading && ticks == 0
    {
      this.reading, ticks := reading, 0;
    }

    method Now() returns (now: real)
      modifies this
      ensures now == reading(old(ticks)) && ticks == old(ticks) + 1
    {
      now := reading(ticks);
      ticks := ticks + 1;
    }
  }

  class HostConnectionPool<C> {
    var queue: seq<Entry<C>>

    constructor ()
      ensures queue == []
    {
      queue := [];
    }

    method Size() returns (n: nat)
      ensures n == |queue|
    {
      n := |queue|;
    }

    method Put(conn: C, time: TimeSource)
      modifies this, time
      ensures queue == old(queue) + [Entry(conn, time.reading(old(time.ticks)))]
      ensures time.ticks == old(time.ticks) + 1
    {
      var now := time.Now();
      queue := queue + [Entry(conn, now)];
    }

    method CleanQueue(duration: real, time: TimeSource)
      modifies this, time
      ensures (queue, time.ticks) == Clean(old(queue), duration, time.reading, old(time.ticks))
    {
      while |queue| > 0
        invariant Clean(queue, duration, time.reading, time.ticks) == Clean(old(queue), duration, time.reading, old(time.ticks))
        decreases |queue|
      {
        var now := time.Now();
        if !Stale(queue[0].time, duration, now) {
          return;
        }
        queue := queue[1..];
      }
    }

    method GetReady(duration: real, time: TimeSource, ready: (C, nat) -> bool) returns (r: Option<C>)
      modifies this, time
      ensures (r, queue, time.ticks) == Get(old(queue), duration, time.reading, old(time.ticks), ready)
    {
      CleanQueue(duration, time);
      var n: nat := |queue|;
      while n > 0
        invariant n <= |queue|
        invariant Scan(queue, n, time.reading, time.ticks, ready) ==
          Get(old(queue), duration, time.reading, old(time.ticks), ready)
        decreases n
      {
        var conn := queue[0].conn;
        queue := queue[1..];
        if ready(conn, time.ticks) {
          return Some(conn);
        }
        Put(conn, time);
        n := n - 1;
      }
      return None;
    }
  }

  // The cleaning of q that starts at reading `start` falls between two readings.
  ghost predicate CleanTime<C>(q: seq<Entry<C>>, duration: real, clock: Clock, start: nat, from: nat, to: nat) {
    from <= start && Clean(q, duration, clock, start).1 <= to
  }

  // What a ConnectionPool.clean that runs makes of the queues, if the queue of
  // key k was cleaned from reading started[k] on: emptied pools are removed.
  ghost predicate CleanedPools<K, C>(
    before: map<K, seq<Entry<C>>>, after: map<K, seq<Entry<C>>>, duration: real, clock: Clock,
    started: map<K, nat>, from: nat, to: nat)
  {
    && before.Keys <= started.Keys
    && after.Keys <= before.Keys
    && forall k :: k in before ==>
         && CleanTime(before[k], duration, clock, started[k], from, to)
         && var q := Clean(before[k], duration, clock, started[k]).0;
            if q == [] then k !in after else k in after && after[k] == q
  }

  // Cleaning every queue and removing the emptied pools.
  lemma RemovedEmpty<K, C>(before: map<K, seq<Entry<C>>>, cleaned: map<K, seq<Entry<C>>>, toRemove: set<K>, duration: real,
                           clock: Clock, started: map<K, nat>, from: nat, to: nat)
    requires cleaned.Keys == before.Keys == started.Keys
    requires forall k :: k in before ==>
      CleanTime(before[k], duration, clock, started[k], from, to) && cleaned[k] == Clean(before[k], duration, clock, started[k]).0
    requires toRemove == set k | k in cleaned && cleaned[k] == []
    ensures CleanedPools(before, cleaned - toRemove, duration, clock, started, from, to)
  {}

  lemma EarlierStart<K, C>(before: map<K, seq<Entry<C>>>, after: map<K, seq<Entry<C>>>, duration: real, clock: Clock,
                           started: map<K, nat>, earlier: nat, from: nat, to: nat)
    requires earlier <= from && CleanedPools(before, after, duration, clock, started, from, to)
    ensures CleanedPools(before, after, duration, clock, started, earlier, to)
  {}

  class ConnectionPool<K(==), C> {
    var hostToPool: map<K, HostConnectionPool<C>>
    var lastCleanTime: real
    const staleDuration: real
    const cleanInterval := 5.0

    // Different keys have different pools.
    ghost predicate Valid()
      reads this
    {
      forall k, k' :: k in hostToPool && k' in hostToPool && hostToPool[k] == hostToPool[k'] ==> k == k'
    }

    // The abstract value: the queue of each key.
    ghost function Queues(): (qs: map<K, seq<Entry<C>>>)
      reads this, hostToPool.Values
    {
      map k | k in hostToPool :: hostToPool[k].queue
    }

    constructor (staleDuration: real)
      ensures Valid() && Queues() == map[] && hostToPool == map[]
      ensures this.staleDuration == staleDuration && lastCleanTime == 0.0
    {
      hostToPool, lastCleanTime := map[], 0.0;
      this.staleDuration := staleDuration;
    }

    method CleanPools(time: TimeSource) returns (ghost started: map<K, nat>)
      requires Valid()
      modifies this, hostToPool.Values, time
      ensures Valid() && hostToPool.Values <= old(hostToPool.Values)
      ensures var now := time.reading(old(time.ticks));
        if old(lastCleanTime) + 5.0 < now
        then CleanedPools(old(Queues()), Queues(), staleDuration, time.reading, started, old(time.ticks), time.ticks) && lastCleanTime == now
        else Queues() == old(Queues()) && lastCleanTime == old(lastCleanTime)
      ensures old(time.ticks) < time.ticks
    {
      started := map[];
      var now := time.Now();
      if lastCleanTime + cleanInterval < now {
        ghost var before, from := Queues(), time.ticks;
        started := CleanDue(time);
        lastCleanTime := now;
        EarlierStart(before, Queues(), staleDuration, time.reading, started, old(time.ticks), from, time.ticks);
      }
    }

    // The body of the conditional in clean, but for the time stamp.
    method CleanDue(time: TimeSource) returns (ghost started: map<K, nat>)
      requires Valid()
      modifies this`hostToPool, hostToPool.Values, time
      ensures Valid() && hostToPool.Values <= old(hostToPool.Values) && old(time.ticks) <= time.ticks
      ensures CleanedPools(old(Queues()), Queues(), staleDuration, time.reading, started, old(time.ticks), time.ticks)
    {
      ghost var before := Queues();
      var toRemove: set<K>;
      toRemove, started := CleanEach(time);
      RemovedEmpty(before, Queues(), toRemove, staleDuration, time.reading, started, old(time.ticks), time.ticks);
      RemovePools(toRemove);
    }

    // for host in to_remove: del self.host_to_pool[host]
    method RemovePools(toRemove: set<K>)
      requires Valid()
      modifies this`hostToPool
      ensures Valid() && hostToPool.Values <= old(hostToPool.Values)
      ensures Queues() == old(Queues()) - toRemove
    {
      hostToPool := hostToPool - toRemove;
    }

    // The loop over the host pools; the order is the dictionary's.
    method CleanEach(time: TimeSource) returns (toRemove: set<K>, ghost started: map<K, nat>)
      requires Valid()
      modifies hostToPool.Values, time
      ensures old(time.ticks) <= time.ticks
      ensures started.Keys == hostToPool.Keys
      ensures forall k :: k in hostToPool ==>
        CleanTime(old(hostToPool[k].queue), staleDuration, time.reading, started[k], old(time.ticks), time.ticks)
      ensures forall k :: k in hostToPool ==>
        hostToPool[k].queue == Clean(old(hostToPool[k].queue), staleDuration, time.reading, started[k]).0
      ensures toRemove == set k | k in hostToPool && hostToPool[k].queue == []
    {
      toRemove, started := {}, map[];
      var keys := hostToPool.Keys;
      while keys != {}
        invariant keys <= hostToPool.Keys && started.Keys == hostToPool.Keys - keys
        invariant old(time.ticks) <= time.ticks
        invariant forall k :: k in started ==>
          CleanTime(old(hostToPool[k].queue), staleDuration, time.reading, started[k], old(time.ticks), time.ticks)
        invariant forall k :: k in keys ==> hostToPool[k].queue == old(hostToPool[k].queue)
        invariant forall k :: k in started ==>
          hostToPool[k].queue == Clean(old(hostToPool[k].queue), staleDuration, time.reading, started[k]).0
        invariant toRemove <= started.Keys
        invariant forall k :: k in started ==> (k in toRemove <==> hostToPool[k].queue == [])
        decreases keys
      {
        var k :| k in keys;
        var pool := hostToPool[k];
        CleanIsSuffix(pool.queue, staleDuration, time.reading, time.ticks);
        started := started[k := time.ticks];
        pool.CleanQueue(staleDuration, time);
        var n := pool.Size();
        if n == 0 {
          toRemove := toRemove + {k};
        }
        keys := keys - {k};
      }
    }

    // get_http_connection. `mid` is the state between its two critical sections.
    method GetHttpConnection(key: K, time: TimeSource, ready: (C, nat) -> bool)
      returns (r: Option<C>, ghost mid: map<K, seq<Entry<C>>>, ghost started: map<K, nat>)
      requires Valid()
      modifies this, hostToPool.Values, time
      ensures Valid() && hostToPool.Values <= old(hostToPool.Values) && old(time.ticks) <= time.ticks
      ensures if old(lastCleanTime) + 5.0 < time.reading(old(time.ticks))
        then CleanedPools(old(Queues()), mid, staleDuration, time.reading, started, old(time.ticks), time.ticks)
        else mid == old(Queues())
      ensures if key !in mid then r == None && Queues() == mid
        else exists t: nat :: t <= time.ticks && var g := Get(mid[key], staleDuration, time.reading, t, ready);
          old(time.ticks) <= t && r == g.0 && Queues() == mid[key := g.1] && time.ticks == g.2
    {
      started := CleanPools(time);
      mid := Queues();
      if key !in hostToPool {
        return None, mid, started;
      }
      ghost var t := time.ticks;
      r := hostToPool[key].GetReady(staleDuration, time, ready);
      ghost var g := Get(mid[key], staleDuration, time.reading, t, ready);
      GetTakesTime(mid[key], time.reading, t, ready);
      assert Queues() == mid[key := g.1];
    }

    lemma GetTakesTime(q: seq<Entry<C>>, clock: Clock, tick: nat, ready: (C, nat) -> bool)
      ensures tick <= Get(q, staleDuration, clock, tick, ready).2
    {
      var d, f := GetTakes(q, staleDuration, clock, tick, ready);
    }

    method PutHttpConnection(key: K, conn: C, time: TimeSource)
      requires Valid()
      modifies this, hostToPool.Values, time
      ensures Valid() && fresh(hostToPool.Values - old(hostToPool.Values))
      ensures time.ticks == old(time.ticks) + 1
      ensures Queues() == old(Queues())[key :=
        (if key in old(Queues()) then old(Queues())[key] else []) + [Entry(conn, time.reading(old(time.ticks)))]]
    {
      if key !in hostToPool {
        var pool := new HostConnectionPool<C>();
        hostToPool := hostToPool[key := pool];
      }
      hostToPool[key].Put(conn, time);
    }
  }

  // ---- every queue of a pool stays sorted ----

  ghost predicate SortedPools<K, C>(qs: map<K, seq<Entry<C>>>, now: real) {
    forall k :: k in qs ==> Sorted(qs[k], now)
  }

  lemma CleanedPoolsSorted<K, C>(before: map<K, seq<Entry<C>>>, after: map<K, seq<Entry<C>>>, duration: real,
                                 clock: Clock, started: map<K, nat>, tick: nat, tick': nat)
    requires Nondecreasing(clock) && tick <= tick' && SortedPools(before, clock(tick))
    requires CleanedPools(before, after, duration, clock, started, tick, tick')
    ensures SortedPools(after, clock(tick')) && forall k :: k in after ==> after[k] != []
  {
    forall k | k in after ensures Sorted(after[k], clock(tick')) && after[k] != [] {
      assert clock(tick) <= clock(started[k]);
      SortedLater(before[k], clock(tick), clock(started[k]));
      CleanKeepsSorted(before[k], duration, clock, started[k]);
      var (q, t) := Clean(before[k], duration, clock, started[k]);
      assert clock(t) <= clock(tick');
      SortedLater(after[k], clock(t), clock(tick'));
    }
  }

  lemma GetSorted<K, C>(qs: map<K, seq<Entry<C>>>, key: K, duration: real, clock: Clock, tick: nat, ready: (C, nat) -> bool)
    requires Nondecreasing(clock) && SortedPools(qs, clock(tick)) && key in qs
    ensures var (r, q, tick') := Get(qs[key], duration, clock, tick, ready);
      SortedPools(qs[key := q], clock(tick'))
  {
    var (r, q, tick') := Get(qs[key], duration, clock, tick, ready);
    GetKeepsSorted(qs[key], duration, clock, tick, ready);
    assert clock(tick) <= clock(tick');
    forall k | k in qs && k != key ensures Sorted(qs[k], clock(tick')) {
      SortedLater(qs[k], clock(tick), clock(tick'));
    }
  }

  lemma PutSorted<K, C>(qs: map<K, seq<Entry<C>>>, key: K, c: C, clock: Clock, tick: nat)
    requires Nondecreasing(clock) && SortedPools(qs, clock(tick))
    ensures SortedPools(qs[key := (if key in qs then qs[key] else []) + [Entry(c, clock(tick))]], clock(tick + 1))
  {
    assert clock(tick) <= clock(tick + 1);
    PutKeepsSorted(if key in qs then qs[key] else [], c, clock, tick);
    forall k | k in qs && k != key ensures Sorted(qs[k], clock(tick + 1)) {
      SortedLater(qs[k], clock(tick), clock(tick + 1));
    }
  }

  // ---- whole runs ----

  datatype PoolState<K, C> = PoolState(queues: map<K, seq<Entry<C>>>, tick: nat)

  // What happens to a pool: a clean that runs, a fetch, a put, or nothing
  // while the clock is read elsewhere.
  datatype PoolOp<K, !C> =
    | DoClean(started: map<K, nat>)
    | DoGet(key: K, ready: (C, nat) -> bool)
    | DoPut(key: K, conn: C)
    | Idle

  ghost predicate Does<K, C>(s: PoolState<K, C>, op: PoolOp<K, C>, s': PoolState<K, C>, duration: real, clock: Clock) {
    match op
    case DoClean(started) =>
      s.tick <= s'.tick && CleanedPools(s.queues, s'.queues, duration, clock, started, s.tick, s'.tick)
    case DoGet(key, ready) =>
      key in s.queues &&
      var (r, q, tick) := Get(s.queues[key], duration, clock, s.tick, ready);
      s' == PoolState(s.queues[key := q], tick)
    case DoPut(key, conn) =>
      s' == PoolState(
        s.queues[key := (if key in s.queues then s.queues[key] else []) + [Entry(conn, clock(s.tick))]], s.tick + 1)
    case Idle =>
      s'.queues == s.queues && s.tick <= s'.tick
  }

  lemma StepSorted<K, C>(s: PoolState<K, C>, op: PoolOp<K, C>, s': PoolState<K, C>, duration: real, clock: Clock)
    requires Nondecreasing(clock) && SortedPools(s.queues, clock(s.tick)) && Does(s, op, s', duration, clock)
    ensures SortedPools(s'.queues, clock(s'.tick))
  {
    match op
    case DoClean(started) =>
      CleanedPoolsSorted(s.queues, s'.queues, duration, clock, started, s.tick, s'.tick);
    case DoGet(key, ready) =>
      GetSorted(s.queues, key, duration, clock, s.tick, ready);
    case DoPut(key, conn) =>
      PutSorted(s.queues, key, conn, clock, s.tick);
    case Idle =>
      assert clock(s.tick) <= clock(s'.tick);
      forall k | k in s.queues ensures Sorted(s'.queues[k], clock(s'.tick)) {
        SortedLater(s.queues[k], clock(s.tick), clock(s'.tick));
      }
  }

  // In every run from an empty pool, under a nondecreasing clock, every queue
  // is sorted at all times.
  lemma {:induction false} RunsStaySorted<K, C>(states: seq<PoolState<K, C>>, ops: seq<PoolOp<K, C>>, n: nat,
                                                duration: real, clock: Clock)
    requires Nondecreasing(clock) && |states| == |ops| + 1 && states[0].queues == map[]
    requires forall i :: 0 <= i < |ops| ==> Does(states[i], ops[i], states[i + 1], duration, clock)
    requires n <= |ops|
    ensures SortedPools(states[n].queues, clock(states[n].tick))
  {
    if n > 0 {
      RunsStaySorted(states, ops, n - 1, duration, clock);
      assert Does(states[n - 1], ops[n - 1], states[n - 1 + 1], duration, clock);
      StepSorted(states[n - 1], ops[n - 1], states[n], duration, clock);
    }
  }
}
