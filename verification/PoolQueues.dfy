/**
  The timed queue of one host in boto.connection, as a value: dropping stale
  heads, looking for a ready connection, and putting connections back. Time is
  an arbitrary nondecreasing clock, read afresh wherever the source calls
  time.time(); whether a connection is ready is an arbitrary oracle.
*/
module PoolQueues {
  import opened Wrappers

  datatype Entry<C> = Entry(conn: C, time: real)

  // What time.time() returns at its n-th call.
  type Clock = nat -> real

  ghost predicate Nondecreasing(clock: Clock) {
    forall i: nat, j: nat :: i <= j ==> clock(i) <= clock(j)
  }

  predicate Stale(time: real, duration: real, now: real) {
    time + duration < now
  }

  // HostConnectionPool.clean from clock reading `tick` on: the queue and the
  // next reading. The clock is read once for every head that is looked at.
  function Clean<C>(q: seq<Entry<C>>, duration: real, clock: Clock, tick: nat): (seq<Entry<C>>, nat)
    decreases |q|
  {
    if q == [] then (q, tick)
    else if Stale(q[0].time, duration, clock(tick)) then Clean(q[1..], duration, clock, tick + 1)
    else (q, tick + 1)
  }

  // The loop of HostConnectionPool.get over the first n entries.
  function Scan<C>(q: seq<Entry<C>>, n: nat, clock: Clock, tick: nat, ready: (C, nat) -> bool)
    : (Option<C>, seq<Entry<C>>, nat)
    requires n <= |q|
    decreases n
  {
    if n == 0 then (None, q, tick)
    else if ready(q[0].conn, tick) then (Some(q[0].conn), q[1..], tick)
    else Scan(q[1..] + [Entry(q[0].conn, clock(tick))], n - 1, clock, tick + 1, ready)
  }

  function Get<C>(q: seq<Entry<C>>, duration: real, clock: Clock, tick: nat, ready: (C, nat) -> bool)
    : (Option<C>, seq<Entry<C>>, nat)
  {
    var (kept, tick') := Clean(q, duration, clock, tick);
    Scan(kept, |kept|, clock, tick', ready)
  }

  // ---- reference definitions ----

  // The entries that are not stale now.
  function Survivors<C>(q: seq<Entry<C>>, duration: real, now: real): seq<Entry<C>> {
    if q == [] then []
    else (if Stale(q[0].time, duration, now) then [] else [q[0]]) + Survivors(q[1..], duration, now)
  }

  // The position of the first ready entry among the first n, or n; the k-th
  // is probed at reading tick + k.
  function FirstReady<C>(q: seq<Entry<C>>, n: nat, tick: nat, ready: (C, nat) -> bool): (k: nat)
    requires n <= |q|
    ensures k <= n
    decreases n
  {
    if n == 0 || ready(q[0].conn, tick) then 0 else 1 + FirstReady(q[1..], n - 1, tick + 1, ready)
  }

  function Restamp<C>(q: seq<Entry<C>>, clock: Clock, tick: nat): seq<Entry<C>> {
    if q == [] then [] else [Entry(q[0].conn, clock(tick))] + Restamp(q[1..], clock, tick + 1)
  }

  // The queue once a scan of n entries passed over the first f and, if f < n,
  // took the one at f out.
  function Rotated<C>(q: seq<Entry<C>>, n: nat, f: nat, clock: Clock, tick: nat): seq<Entry<C>>
    requires f <= n <= |q|
  {
    q[if f < n then f + 1 else n..] + Restamp(q[..f], clock, tick)
  }

  function Conns<C>(q: seq<Entry<C>>): (cs: seq<C>)
    ensures |cs| == |q| && forall i :: 0 <= i < |q| ==> cs[i] == q[i].conn
  {
    if q == [] then [] else [q[0].conn] + Conns(q[1..])
  }

  // Oldest first, and nothing is stamped later than `now`.
  predicate Sorted<C>(q: seq<Entry<C>>, now: real) {
    q == [] || (q[|q| - 1].time <= now && Sorted(q[..|q| - 1], q[|q| - 1].time))
  }

  lemma {:induction false} SortedIndices<C>(q: seq<Entry<C>>, now: real)
    requires Sorted(q, now)
    ensures forall i, j :: 0 <= i < j < |q| ==> q[i].time <= q[j].time
    ensures forall i :: 0 <= i < |q| ==> q[i].time <= now
  {
    if q == [] {
    } else {
      SortedIndices(q[..|q| - 1], q[|q| - 1].time);
    }
  }

  lemma {:induction false} SortedTail<C>(q: seq<Entry<C>>, now: real)
    requires Sorted(q, now) && q != []
    ensures Sorted(q[1..], now)
  {
    if |q| > 1 {
      SortedTail(q[..|q| - 1], q[|q| - 1].time);
      assert q[1..][..|q| - 2] == q[..|q| - 1][1..];
    }
  }

  lemma SortedLater<C>(q: seq<Entry<C>>, now: real, later: real)
    requires Sorted(q, now) && now <= later
    ensures Sorted(q, later)
  {}

  // ---- what cleaning and looking do ----

  // No stale entry is behind a fresh one.
  predicate StaleFirst<C>(q: seq<Entry<C>>, duration: real, now: real) {
    forall i, j :: 0 <= i < j < |q| && Stale(q[j].time, duration, now) ==> Stale(q[i].time, duration, now)
  }

  // On any queue, dropping stale heads is dropping every stale entry, judged
  // at the last reading taken, exactly when no stale one is behind a fresh one.
  lemma {:induction false} CleanIsFilterIff<C>(q: seq<Entry<C>>, duration: real, clock: Clock, tick: nat)
    requires Nondecreasing(clock) && q != []
    ensures var (q', tick') := Clean(q, duration, clock, tick);
      && tick < tick'
      && (q' == Survivors(q, duration, clock(tick' - 1)) <==> StaleFirst(q, duration, clock(tick' - 1)))
    decreases |q|
  {
    if !Stale(q[0].time, duration, clock(tick)) {
      FreshHeadIff(q, duration, clock(tick));
    } else if |q| > 1 {
      CleanIsFilterIff(q[1..], duration, clock, tick + 1);
      var last := Clean(q[1..], duration, clock, tick + 1).1 - 1;
      StaleLater(q[0], duration, clock, tick, last);
      StaleHeadIff(q, duration, clock(last));
    }
  }

  lemma FreshHeadIff<C>(q: seq<Entry<C>>, duration: real, now: real)
    requires q != [] && !Stale(q[0].time, duration, now)
    ensures q == Survivors(q, duration, now) <==> StaleFirst(q, duration, now)
  {
    if q == Survivors(q, duration, now) {
      SurvivorsFresh(q, duration, now);
    }
    if StaleFirst(q, duration, now) {
      AllSurvive(q, duration, now);
    }
  }

  lemma StaleHeadIff<C>(q: seq<Entry<C>>, duration: real, now: real)
    requires q != [] && Stale(q[0].time, duration, now)
    ensures StaleFirst(q, duration, now) <==> StaleFirst(q[1..], duration, now)
  {
    assert forall i :: 1 <= i < |q| ==> q[i] == q[1..][i - 1];
    if StaleFirst(q, duration, now) {
      forall i, j | 0 <= i < j < |q| - 1 && Stale(q[1..][j].time, duration, now) ensures Stale(q[1..][i].time, duration, now) {
        assert Stale(q[j + 1].time, duration, now) && q[1..][i] == q[i + 1];
      }
    }
  }

  lemma {:induction false} SurvivorsFresh<C>(q: seq<Entry<C>>, duration: real, now: real)
    ensures forall e :: e in Survivors(q, duration, now) ==> !Stale(e.time, duration, now)
  {
    if q == [] {
    } else {
      SurvivorsFresh(q[1..], duration, now);
    }
  }

  // So it is on a sorted queue.
  lemma CleanIsFilter<C>(q: seq<Entry<C>>, duration: real, clock: Clock, tick: nat)
    requires Nondecreasing(clock) && Sorted(q, clock(tick))
    ensures var (q', tick') := Clean(q, duration, clock, tick);
      if q == [] then q' == [] && tick' == tick
      else tick < tick' && q' == Survivors(q, duration, clock(tick' - 1))
  {
    if q == [] {
    } else {
      CleanIsFilterIff(q, duration, clock, tick);
      SortedIndices(q, clock(tick));
    }
  }

  lemma StaleLater<C>(e: Entry<C>, duration: real, clock: Clock, tick: nat, later: nat)
    requires Nondecreasing(clock) && tick <= later && Stale(e.time, duration, clock(tick))
    ensures Stale(e.time, duration, clock(later))
  {
    assert clock(tick) <= clock(later);
  }

  lemma {:induction false} AllSurvive<C>(q: seq<Entry<C>>, duration: real, now: real)
    requires forall i :: 0 <= i < |q| ==> !Stale(q[i].time, duration, now)
    ensures Survivors(q, duration, now) == q
  {
    if q == [] {
    } else {
      AllSurvive(q[1..], duration, now);
    }
  }

  // On a sorted queue under a nondecreasing clock, the entries that cleaning
  // keeps are those whose time plus the duration had not passed at its last
  // look at the clock; they are the last ones.
  lemma {:induction false} CleanKeepsExactly<C>(q: seq<Entry<C>>, duration: real, clock: Clock, tick: nat, i: nat)
    requires Nondecreasing(clock) && Sorted(q, clock(tick)) && i < |q|
    ensures var (q', tick') := Clean(q, duration, clock, tick);
      && |q'| <= |q| && q' == q[|q| - |q'|..] && tick < tick'
      && (|q| - |q'| <= i <==> q[i].time + duration >= clock(tick' - 1))
    decreases |q|
  {
    SortedIndices(q, clock(tick));
    CleanIsSuffix(q, duration, clock, tick);
    CleanKeepsSorted(q, duration, clock, tick);
    if q[0].time + duration < clock(tick) && |q| > 1 {
      assert clock(tick) <= clock(tick + 1);
      SortedTail(q, clock(tick));
      SortedLater(q[1..], clock(tick), clock(tick + 1));
      CleanKeepsExactly(q[1..], duration, clock, tick + 1, if i > 0 then i - 1 else 0);
      assert clock(tick) <= clock(Clean(q, duration, clock, tick).1 - 1);
    }
  }

  // A head whose time is not up stays, and with it all of the queue; get
  // returns that very connection if it is ready.
  lemma FreshHeadIsReused<C>(q: seq<Entry<C>>, duration: real, clock: Clock, tick: nat, ready: (C, nat) -> bool)
    requires q != [] && q[0].time + duration >= clock(tick)
    ensures Clean(q, duration, clock, tick) == (q, tick + 1)
    ensures ready(q[0].conn, tick + 1) ==>
      Get(q, duration, clock, tick, ready) == (Some(q[0].conn), q[1..], tick + 1)
  {}

  // A head whose time is up goes.
  lemma StaleHeadIsDropped<C>(q: seq<Entry<C>>, duration: real, clock: Clock, tick: nat)
    requires q != [] && q[0].time + duration < clock(tick)
    ensures Clean(q, duration, clock, tick) == Clean(q[1..], duration, clock, tick + 1)
  {}

  // Cleaning drops a prefix, whatever the clock does.
  lemma {:induction false} CleanIsSuffix<C>(q: seq<Entry<C>>, duration: real, clock: Clock, tick: nat)
    ensures var (q', tick') := Clean(q, duration, clock, tick);
      |q'| <= |q| && q' == q[|q| - |q'|..] && tick <= tick'
    decreases |q|
  {
    if q != [] && Stale(q[0].time, duration, clock(tick)) {
      CleanIsSuffix(q[1..], duration, clock, tick + 1);
    }
  }

  // get returns the first ready entry, or None if none is ready; the entries
  // it passed over are at the back, in order and restamped, and the others
  // are untouched.
  lemma {:induction false} ScanFindsFirstReady<C>(
    q: seq<Entry<C>>, n: nat, clock: Clock, tick: nat, ready: (C, nat) -> bool)
    requires n <= |q|
    ensures var f := FirstReady(q, n, tick, ready);
      Scan(q, n, clock, tick, ready) ==
      (if f < n then Some(q[f].conn) else None, Rotated(q, n, f, clock, tick), tick + f)
    decreases n
  {
    if n > 0 && !ready(q[0].conn, tick) {
      var moved := Entry(q[0].conn, clock(tick));
      var f := FirstReady(q[1..], n - 1, tick + 1, ready);
      FirstReadyPrefix(q[1..], [moved], n - 1, tick + 1, ready);
      ScanFindsFirstReady(q[1..] + [moved], n - 1, clock, tick + 1, ready);
      RotatedStep(q, n, f, clock, tick);
    } else {
      assert q[..0] == [];
      assert q[if 0 < n then 1 else 0..] + [] == q[if 0 < n then 1 else 0..];
    }
  }

  lemma RotatedStep<C>(q: seq<Entry<C>>, n: nat, f: nat, clock: Clock, tick: nat)
    requires f < n <= |q|
    ensures Rotated(q[1..] + [Entry(q[0].conn, clock(tick))], n - 1, f, clock, tick + 1) == Rotated(q, n, f + 1, clock, tick)
  {
    var moved := Entry(q[0].conn, clock(tick));
    var t := q[1..] + [moved];
    assert t[..f] == q[1..][..f] == q[..f + 1][1..];
    var restamped := Restamp(q[1..][..f], clock, tick + 1);
    assert Restamp(q[..f + 1], clock, tick) == [moved] + restamped;
    var from := if f < n - 1 then f + 1 else n - 1;
    assert t[from..] == q[from + 1..] + [moved];
    assert q[from + 1..] + [moved] + restamped == q[from + 1..] + ([moved] + restamped);
  }

  lemma {:induction false} FirstReadyPrefix<C>(
    q: seq<Entry<C>>, more: seq<Entry<C>>, n: nat, tick: nat, ready: (C, nat) -> bool)
    requires n <= |q|
    ensures FirstReady(q + more, n, tick, ready) == FirstReady(q, n, tick, ready)
    decreases n
  {
    if n > 0 && !ready(q[0].conn, tick) {
      assert (q + more)[1..] == q[1..] + more;
      FirstReadyPrefix(q[1..], more, n - 1, tick + 1, ready);
    }
  }

  // Nothing before the first ready entry is ready, and it is.
  lemma {:induction false} FirstReadyIsFirst<C>(q: seq<Entry<C>>, n: nat, tick: nat, ready: (C, nat) -> bool)
    requires n <= |q|
    ensures var f := FirstReady(q, n, tick, ready);
      && (forall k :: 0 <= k < f ==> !ready(q[k].conn, tick + k))
      && (f < n ==> ready(q[f].conn, tick + f))
    decreases n
  {
    if n > 0 && !ready(q[0].conn, tick) {
      FirstReadyIsFirst(q[1..], n - 1, tick + 1, ready);
      forall k | 0 <= k < FirstReady(q, n, tick, ready) ensures !ready(q[k].conn, tick + k) {
        if k > 0 {
          assert !ready(q[1..][k - 1].conn, tick + 1 + (k - 1));
        }
      }
    }
  }

  lemma {:induction false} RestampConns<C>(q: seq<Entry<C>>, clock: Clock, tick: nat)
    ensures Conns(Restamp(q, clock, tick)) == Conns(q) && |Restamp(q, clock, tick)| == |q|
    ensures forall i :: 0 <= i < |q| ==> Restamp(q, clock, tick)[i].time == clock(tick + i)
  {
    if q == [] {
    } else {
      RestampConns(q[1..], clock, tick + 1);
      forall i | 0 <= i < |q| ensures Restamp(q, clock, tick)[i].time == clock(tick + i) {
        if i > 0 {
          assert Restamp(q[1..], clock, tick + 1)[i - 1].time == clock(tick + 1 + (i - 1));
        }
      }
    }
  }

  // What get does to the connections: it drops `dropped` stale ones from the
  // front, and takes the one at `found` out, moving those before it to the
  // back; with nothing found the order is unchanged.
  predicate Took<C(==)>(before: seq<C>, r: Option<C>, after: seq<C>, dropped: nat, found: nat) {
    && dropped <= |before|
    && var s := before[dropped..];
       if found < |s| then r == Some(s[found]) && after == s[found + 1..] + s[..found]
       else r == None && after == s
  }

  lemma GetTakes<C>(q: seq<Entry<C>>, duration: real, clock: Clock, tick: nat, ready: (C, nat) -> bool)
    returns (dropped: nat, found: nat)
    ensures var (r, q', tick') := Get(q, duration, clock, tick, ready);
      Took(Conns(q), r, Conns(q'), dropped, found) && tick <= tick'
  {
    var (s, t) := Clean(q, duration, clock, tick);
    CleanIsSuffix(q, duration, clock, tick);
    dropped, found := |q| - |s|, FirstReady(s, |s|, t, ready);
    assert Conns(s) == Conns(q)[dropped..];
    ScanTakes(s, clock, t, ready);
  }

  lemma ScanTakes<C>(s: seq<Entry<C>>, clock: Clock, tick: nat, ready: (C, nat) -> bool)
    ensures var (r, q', tick') := Scan(s, |s|, clock, tick, ready); var f := FirstReady(s, |s|, tick, ready);
      && tick <= tick'
      && if f < |s| then r == Some(s[f].conn) && Conns(q') == Conns(s)[f + 1..] + Conns(s)[..f]
         else r == None && Conns(q') == Conns(s)
  {
    var f := FirstReady(s, |s|, tick, ready);
    ScanFindsFirstReady(s, |s|, clock, tick, ready);
    RestampConns(s[..f], clock, tick);
    if f < |s| {
      ConnsAppend(s[f + 1..], Restamp(s[..f], clock, tick));
      assert Conns(s[f + 1..]) == Conns(s)[f + 1..] && Conns(s[..f]) == Conns(s)[..f];
    } else {
      assert s[..|s|] == s && s[|s|..] == [];
      ConnsAppend(s[|s|..], Restamp(s, clock, tick));
    }
  }

  lemma ConnsAppend<C>(s: seq<Entry<C>>, t: seq<Entry<C>>)
    ensures Conns(s + t) == Conns(s) + Conns(t)
  {}

  // Timestamps stay sorted, and no later than the next reading.
  lemma PutKeepsSorted<C>(q: seq<Entry<C>>, c: C, clock: Clock, tick: nat)
    requires Nondecreasing(clock) && Sorted(q, clock(tick))
    ensures Sorted(q + [Entry(c, clock(tick))], clock(tick + 1))
  {
    assert (q + [Entry(c, clock(tick))])[..|q|] == q;
    assert clock(tick) <= clock(tick + 1);
  }

  // So they do when stale heads are dropped, and no stale head is left at the
  // last look at the clock.
  lemma {:induction false} CleanKeepsSorted<C>(q: seq<Entry<C>>, duration: real, clock: Clock, tick: nat)
    requires Nondecreasing(clock) && Sorted(q, clock(tick))
    ensures var (q', tick') := Clean(q, duration, clock, tick);
      && Sorted(q', clock(tick')) && tick <= tick'
      && (q' != [] ==> tick < tick' && !Stale(q'[0].time, duration, clock(tick' - 1)))
    decreases |q|
  {
    if q == [] {
    } else {
      assert clock(tick) <= clock(tick + 1);
      SortedTail(q, clock(tick));
      SortedLater(q[1..], clock(tick), clock(tick + 1));
      CleanKeepsSorted(q[1..], duration, clock, tick + 1);
    }
  }

  lemma {:induction false} ScanKeepsSorted<C>(q: seq<Entry<C>>, n: nat, clock: Clock, tick: nat, ready: (C, nat) -> bool)
    requires Nondecreasing(clock) && Sorted(q, clock(tick)) && n <= |q|
    ensures var (r, q', tick') := Scan(q, n, clock, tick, ready);
      Sorted(q', clock(tick')) && tick <= tick'
    decreases n
  {
    if n > 0 {
      SortedTail(q, clock(tick));
      PutKeepsSorted(q[1..], q[0].conn, clock, tick);
      ScanKeepsSorted(q[1..] + [Entry(q[0].conn, clock(tick))], n - 1, clock, tick + 1, ready);
    }
  }

  lemma GetKeepsSorted<C>(q: seq<Entry<C>>, duration: real, clock: Clock, tick: nat, ready: (C, nat) -> bool)
    requires Nondecreasing(clock) && Sorted(q, clock(tick))
    ensures var (r, q', tick') := Get(q, duration, clock, tick, ready);
      Sorted(q', clock(tick')) && tick <= tick'
  {
    var (s, t) := Clean(q, duration, clock, tick);
    CleanKeepsSorted(q, duration, clock, tick);
    ScanKeepsSorted(s, |s|, clock, t, ready);
  }

  // Under a nondecreasing clock, get drops every entry that is stale at some
  // reading, returns the first ready survivor (None if
  // none is ready), and keeps every other survivor exactly once: those after
  // it in place, those before it moved to the back with later timestamps.
  lemma GetReturnsFirstReadySurvivor<C>(
    q: seq<Entry<C>>, duration: real, clock: Clock, tick: nat, ready: (C, nat) -> bool)
    returns (survivors: seq<Entry<C>>, t: nat, f: nat)
    requires Nondecreasing(clock) && Sorted(q, clock(tick))
    ensures if q == [] then t == tick && survivors == []
            else tick < t && survivors == Survivors(q, duration, clock(t - 1))
    ensures f <= |survivors|
    ensures forall k :: 0 <= k < f ==> !ready(survivors[k].conn, t + k)
    ensures f < |survivors| ==> ready(survivors[f].conn, t + f)
    ensures Get(q, duration, clock, tick, ready) ==
      (if f < |survivors| then Some(survivors[f].conn) else None, Rotated(survivors, |survivors|, f, clock, t), t + f)
  {
    CleanIsFilter(q, duration, clock, tick);
    survivors, t := Clean(q, duration, clock, tick).0, Clean(q, duration, clock, tick).1;
    f := ScanAll(survivors, clock, t, ready);
  }

  lemma ScanAll<C>(s: seq<Entry<C>>, clock: Clock, t: nat, ready: (C, nat) -> bool) returns (f: nat)
    ensures f <= |s|
    ensures forall k :: 0 <= k < f ==> !ready(s[k].conn, t + k)
    ensures f < |s| ==> ready(s[f].conn, t + f)
    ensures Scan(s, |s|, clock, t, ready) ==
      (if f < |s| then Some(s[f].conn) else None, Rotated(s, |s|, f, clock, t), t + f)
  {
    f := FirstReady(s, |s|, t, ready);
    FirstReadyIsFirst(s, |s|, t, ready);
    ScanFindsFirstReady(s, |s|, clock, t, ready);
  }
}
