/**
 Simulated time (sys161-1.14/main/clock.c): a pool of event nodes, a queue of pending events
 sorted by due time, and a clock that runs callbacks which schedule further events.
 */
module EventOrder {
  import opened IndexList
  import opened Prelude

  /** Event a fires before event b: it is due earlier, or at the same time and was scheduled first. */
  ghost predicate Before(due: seq<int>, a: nat, b: nat)
    requires a < |due| && b < |due|
  {
    due[a] < due[b] || (due[a] == due[b] && a < b)
  }

  ghost predicate Known(due: seq<int>, s: seq<nat>) {
    forall i :: 0 <= i < |s| ==> s[i] < |due|
  }

  /** Serial numbers in firing order. */
  ghost predicate Ordered(due: seq<int>, s: seq<nat>)
    requires Known(due, s)
  {
    forall i, j :: 0 <= i < j < |s| ==> Before(due, s[i], s[j])
  }

  /** Where a new event belongs: after everything due no later, before everything due later. */
  lemma InsertOrdered(due: seq<int>, s: seq<nat>, i: nat, t: int)
    requires Known(due, s) && Ordered(due, s) && i <= |s|
    requires forall k :: 0 <= k < i ==> due[s[k]] <= t
    requires forall k :: i <= k < |s| ==> t < due[s[k]]
    ensures var due', s' := due + [t], With<nat>(s, i, |due|);
            Known(due', s') && Ordered(due', s')
  {
    var due', s' := due + [t], With<nat>(s, i, |due|);
    forall k | 0 <= k < |s'|
      ensures s'[k] == (if k < i then s[k] else if k == i then |due| else s[k - 1])
    {
    }
    forall j, k | 0 <= j < k < |s'|
      ensures Before(due', s'[j], s'[k])
    {
      if j != i && k != i {
        var j', k' := if j < i then j else j - 1, if k < i then k else k - 1;
        assert Before(due, s[j'], s[k']);
      }
    }
  }

  /** In firing order no event appears twice; and n events in all means every event appears. */
  lemma OrderedDistinct(due: seq<int>, s: seq<nat>)
    requires Known(due, s) && Ordered(due, s)
    ensures forall i, j :: 0 <= i < j < |s| ==> s[i] != s[j]
  {
    forall i, j | 0 <= i < j < |s|
      ensures s[i] != s[j]
    {
      assert Before(due, s[i], s[j]);
    }
  }

  ghost function Elements(s: seq<nat>): set<nat> { set x | x in s }

  lemma {:induction false} ElementCount(s: seq<nat>)
    requires forall i, j :: 0 <= i < j < |s| ==> s[i] != s[j]
    ensures |Elements(s)| == |s|
  {
    if s == [] {
      assert Elements(s) == {};
    } else {
      var t := s[..|s| - 1];
      ElementCount(t);
      assert Elements(s) == Elements(t) + {s[|s| - 1]};
    }
  }

  ghost function UpTo(n: nat): (r: set<nat>)
    ensures |r| == n && forall x: nat :: x in r <==> x < n
  {
    if n == 0 then {}
    else UpTo(n - 1) + {n - 1}
  }

  /** If as many events have fired or wait as were ever scheduled, each of them did exactly once. */
  lemma EachExactlyOnce(due: seq<int>, s: seq<nat>, e: nat)
    requires Known(due, s) && Ordered(due, s) && |s| == |due| && e < |due|
    ensures exists k :: 0 <= k < |s| && s[k] == e && forall j :: 0 <= j < |s| && j != k ==> s[j] != e
  {
    OrderedDistinct(due, s);
    ElementCount(s);
    var a, b := Elements(s), UpTo(|due|);
    if e !in s {
      assert a <= b - {e} && |b - {e}| == |b| - 1;
      SubsetSize(a, b - {e});
      assert false;
    }
    var k :| 0 <= k < |s| && s[k] == e;
  }
}

module Clock {
  import opened Prelude
  import opened IndexList
  import opened EventOrder

  const NSECS_PER_CLOCK := 40
  const NSECS_PER_SEC := 1_000_000_000

  /**
   Fired and pending events together are all events ever scheduled, in firing order; each
   fired when it was due, and none is overdue.
   */
  ghost predicate History(due: seq<int>, fired: seq<nat>, firedAt: seq<int>, now: int, pending: seq<nat>) {
    && Known(due, fired + pending) && Ordered(due, fired + pending)
    && |fired| + |pending| == |due|
    && |firedAt| == |fired| && (forall i :: 0 <= i < |fired| ==> fired[i] < |due| && firedAt[i] == due[fired[i]] <= now)
    && (forall k :: 0 <= k < |pending| ==> pending[k] < |due| && now <= due[pending[k]])
  }

  /** The pending events are in order of due time. */
  lemma PendingSorted(due: seq<int>, fired: seq<nat>, firedAt: seq<int>, now: int, pending: seq<nat>, i: nat, j: nat)
    requires History(due, fired, firedAt, now, pending) && i <= j < |pending|
    ensures due[pending[i]] <= due[pending[j]]
  {
    if i < j {
      var s := fired + pending;
      assert Before(due, s[|fired| + i], s[|fired| + j]);
    }
  }

  lemma HistoryInsert(due: seq<int>, fired: seq<nat>, firedAt: seq<int>, now: int, pending: seq<nat>, i: nat, t: int)
    requires History(due, fired, firedAt, now, pending) && i <= |pending| && now <= t
    requires forall k :: 0 <= k < i ==> due[pending[k]] <= t
    requires i < |pending| ==> t < due[pending[i]]
    ensures History(due + [t], fired, firedAt, now, With<nat>(pending, i, |due|))
  {
    OrderInsert(due, fired, firedAt, now, pending, i, t);
    InsertAfter(fired, pending, i, |due|);
  }

  lemma OrderInsert(due: seq<int>, fired: seq<nat>, firedAt: seq<int>, now: int, pending: seq<nat>, i: nat, t: int)
    requires History(due, fired, firedAt, now, pending) && i <= |pending| && now <= t
    requires forall k :: 0 <= k < i ==> due[pending[k]] <= t
    requires i < |pending| ==> t < due[pending[i]]
    ensures var s := With<nat>(fired + pending, |fired| + i, |due|); Known(due + [t], s) && Ordered(due + [t], s)
  {
    var s := fired + pending;
    forall k | |fired| + i <= k < |s|
      ensures t < due[s[k]]
    {
      PendingSorted(due, fired, firedAt, now, pending, i, k - |fired|);
    }
    InsertOrdered(due, s, |fired| + i, t);
  }

  lemma InsertAfter(a: seq<nat>, b: seq<nat>, i: nat, x: nat)
    requires i <= |b|
    ensures a + With<nat>(b, i, x) == With<nat>(a + b, |a| + i, x)
  {
  }

  lemma HistoryFire(due: seq<int>, fired: seq<nat>, firedAt: seq<int>, now: int, pending: seq<nat>)
    requires History(due, fired, firedAt, now, pending) && pending != [] && due[pending[0]] == now
    ensures History(due, fired + [pending[0]], firedAt + [now], now, pending[1..])
  {
    assert (fired + [pending[0]]) + pending[1..] == fired + pending;
  }

  /** Time may move to any moment up to the first pending event. */
  lemma HistoryWait(due: seq<int>, fired: seq<nat>, firedAt: seq<int>, now: int, pending: seq<nat>, later: int)
    requires History(due, fired, firedAt, now, pending) && now <= later
    requires pending != [] ==> later <= due[pending[0]]
    ensures History(due, fired, firedAt, later, pending)
  {
    forall k | 0 <= k < |pending|
      ensures later <= due[pending[k]]
    {
      PendingSorted(due, fired, firedAt, now, pending, 0, k);
    }
  }

  /**
   What the simulator's event clock is for. Event e fires at most once, at its own time and
   at no other; by the time the clock has passed it, it has fired; and two events fire in
   order of time, those due together in the order they were scheduled.
   */
  lemma FiresOnceOnTime(due: seq<int>, fired: seq<nat>, firedAt: seq<int>, now: int, pending: seq<nat>, e: nat)
    requires History(due, fired, firedAt, now, pending) && e < |due|
    ensures forall i, j :: 0 <= i < j < |fired| ==> !(fired[i] == fired[j] == e)
    ensures forall i :: 0 <= i < |fired| && fired[i] == e ==> firedAt[i] == due[e]
    ensures due[e] < now ==> e in fired
    ensures e in fired <==> e !in pending
    ensures forall i, j :: 0 <= i < j < |fired| ==> Before(due, fired[i], fired[j])
  {
    var s := fired + pending;
    EachExactlyOnce(due, s, e);
    var k :| 0 <= k < |s| && s[k] == e && forall j :: 0 <= j < |s| && j != k ==> s[j] != e;
    assert forall i :: 0 <= i < |fired| ==> s[i] == fired[i];
    assert forall i :: 0 <= i < |pending| ==> s[|fired| + i] == pending[i];
  }

  /** Once nothing is due at this clock, every event due by now has fired. */
  lemma AllDueFired(due: seq<int>, fired: seq<nat>, firedAt: seq<int>, now: int, pending: seq<nat>, e: nat)
    requires History(due, fired, firedAt, now, pending) && e < |due| && due[e] <= now
    requires pending != [] ==> due[pending[0]] != now
    ensures e in fired
  {
    HistoryWait(due, fired, firedAt, now, pending, now + 1);
    FiresOnceOnTime(due, fired, firedAt, now + 1, pending, e);
  }

  /** The nodes of the queue carry the due times of the pending events. */
  ghost predicate Timed(due: seq<int>, pending: seq<nat>, queue: seq<int>, at: seq<int>) {
    && |pending| == |queue|
    && (forall k :: 0 <= k < |queue| ==> 0 <= queue[k] < |at| && pending[k] < |due| && at[queue[k]] == due[pending[k]])
  }

  lemma TimedInsert(due: seq<int>, pending: seq<nat>, queue: seq<int>, at: seq<int>, i: nat, n: int, t: int)
    requires Timed(due, pending, queue, at) && i <= |queue| && 0 <= n < |at| && n !in queue
    ensures Timed(due + [t], With<nat>(pending, i, |due|), With(queue, i, n), at[n := t])
  {
    WithMembers(queue, i, n);
    WithMembers(pending, i, |due|);
  }

  /** An event due now stays at the head when a later one, or one as late, is inserted. */
  lemma HeadStays(queue: seq<int>, at: seq<int>, i: nat, n: int, t: int, now: int)
    requires i <= |queue| && 0 <= n < |at| && n !in queue && now <= t
    requires i < |queue| ==> 0 <= queue[i] < |at| && t < at[queue[i]]
    ensures queue != [] && 0 <= queue[0] < |at| && at[queue[0]] == now ==>
              With(queue, i, n)[0] == queue[0] && at[n := t][queue[0]] == now
  {
  }

  /** What clock_waitirq takes for the time spent asleep, from two readings of the wall clock. */
  function Slept(sec1: int, usec1: int, sec2: int, usec2: int): (int, int) {
    (sec2 - sec1, if usec2 < usec1 then usec2 + 1_000_000 - usec1 else usec2 - usec1)
  }

  /** It is right exactly when the microseconds did not wrap, and otherwise one second too long. */
  lemma SleptExactlyWhen(sec1: int, usec1: int, sec2: int, usec2: int)
    requires 0 <= usec1 < 1_000_000 && 0 <= usec2 < 1_000_000
    ensures var (s, u) := Slept(sec1, usec1, sec2, usec2);
            var slept := s * 1_000_000 + u;
            var truth := (sec2 * 1_000_000 + usec2) - (sec1 * 1_000_000 + usec1);
            && 0 <= u < 1_000_000
            && (slept == truth <==> usec1 <= usec2)
            && (usec2 < usec1 ==> slept == truth + 1_000_000)
  {
  }

  /** The virtual time, in nanoseconds, that a wait with nothing pending takes: a second too long if the microseconds wrapped. */
  function Idled(sec1: int, usec1: int, sec2: int, usec2: int): int {
    1000 * ((sec2 * 1_000_000 + usec2) - (sec1 * 1_000_000 + usec1)) + if usec2 < usec1 then NSECS_PER_SEC else 0
  }

  /** From 0.9 s to 1.1 s past a full second is 0.2 s, and is taken for 1.2 s. */
  lemma SleptInstance()
    ensures var (s, u) := Slept(0, 900_000, 1, 100_000);
            s * 1_000_000 + u == 1_200_000 && (1 * 1_000_000 + 100_000) - (0 * 1_000_000 + 900_000) == 200_000
  {
  }

  /** One callback: the delays, with their stretch, of the events it schedules. */
  type Callback = seq<(nat, nat)>

  ghost predicate Stretched(c: Callback) {
    forall k :: 0 <= k < |c| ==> c[k].1 <= c[k].0 / 100
  }

  function DueTime(now: int, delay: (nat, nat)): int {
    now + (delay.0 + delay.1) / NSECS_PER_CLOCK
  }

  /** That many nanoseconds are that many clocks, the rest dropped. */
  ghost predicate DelayOk(nsecs: int, clocks: int) {
    clocks * NSECS_PER_CLOCK <= nsecs < (clocks + 1) * NSECS_PER_CLOCK
  }

  /** The events from number n on are those of c, scheduled at `now`, each due after its delay. */
  ghost predicate DueAfter(due: seq<int>, n: nat, c: Callback, now: int) {
    |due| == n + |c| && forall k :: 0 <= k < |c| ==> DueAt(due, n, c, now, k)
  }

  ghost predicate DueAt(due: seq<int>, n: nat, c: Callback, now: int, k: nat)
    requires |due| == n + |c| && k < |c|
  {
    DelayOk(c[k].0 + c[k].1, due[n + k] - now)
  }

  lemma DueAfterNext(due: seq<int>, n: nat, c: Callback, now: int, more: seq<int>, d: Callback)
    requires DueAfter(due, n, c, now) && DueAfter(due + more, |due|, d, now)
    ensures DueAfter(due + more, n, c + d, now)
  {
    forall k | 0 <= k < |c + d|
      ensures DueAt(due + more, n, c + d, now, k)
    {
      assert if k < |c| then DueAt(due, n, c, now, k) else DueAt(due + more, |due|, d, now, k - |c|);
    }
  }

  /** How many callbacks of a script have run when n events have fired. */
  function Ran(script: seq<Callback>, n: int): nat { if n < 0 then 0 else if n < |script| then n else |script| }

  /** All that the first n callbacks of a script schedule. */
  ghost function Scheduled(script: seq<Callback>, n: nat): Callback
    requires n <= |script|
  {
    if n == 0 then [] else Scheduled(script, n - 1) + script[n - 1]
  }

  ghost predicate AllStretched(script: seq<Callback>) {
    forall k :: 0 <= k < |script| ==> Stretched(script[k])
  }

  class Events {
    /** The size of the pool; 1024 in the source, any size here. */
    const maxActions: nat
    const next: array<int>
    const clocksat: array<int>
    var freelist: int
    var queuehead: int
    var nowClocks: int
    var nowSecs: int
    var nowNsecs: int

    /** Nodes in the queue and in the pool. */
    ghost var queue: seq<int>
    ghost var pool: seq<int>

    /** When each event ever scheduled is due; which are pending; which have fired, in order, and when. */
    ghost var pending: seq<nat>
    ghost var due: seq<int>
    ghost var fired: seq<nat>
    ghost var firedAt: seq<int>

    /** The queue and the pool partition the nodes. */
    ghost predicate ListsOk()
      reads this, next
    {
      && next.Length == clocksat.Length == maxActions && next != clocksat
      && IsList(next[..], queuehead, queue) && IsList(next[..], freelist, pool)
      && (forall x :: x in queue ==> x !in pool)
      && |queue| + |pool| == maxActions
    }

    ghost predicate Valid()
      reads this, next, clocksat
    {
      && ListsOk() && 0 <= nowNsecs < NSECS_PER_SEC
      && Timed(due, pending, queue, clocksat[..]) && History(due, fired, firedAt, nowClocks, pending)
    }

    /** clock_init up to its first clock_advance: every node in the pool, the clock set to the host's. */
    constructor (actions: nat, secs: int, nsecs: int)
      requires 0 <= nsecs < NSECS_PER_SEC
      ensures nowClocks == 0 && nowSecs == secs && nowNsecs == nsecs && queue == [] && due == [] && fired == []
      ensures Valid() && fresh(next) && fresh(clocksat) && maxActions == actions
    {
      maxActions := actions;
      next := new int[actions];
      clocksat := new int[actions];
      freelist, queuehead, nowClocks := NULL, NULL, 0;
      queue, pool, pending, due, fired, firedAt := [], [], [], [], [], [];
      new;
      FillPool();
      nowSecs, nowNsecs := secs, nsecs;
    }

    /** acalloc_init */
    method FillPool()
      requires next.Length == clocksat.Length == maxActions && next != clocksat
      requires freelist == queuehead == NULL && nowClocks == 0 && pool == queue == [] && due == firedAt == [] && fired == pending == []
      modifies this`freelist, this`pool, next
      ensures ListsOk() && queue == []
    {
      var i := 0;
      while i < maxActions
        invariant 0 <= i <= maxActions && |pool| == i
        invariant IsList(next[..], freelist, pool) && forall x :: x in pool ==> x < i
      {
        AcFree(i);
        i := i + 1;
      }
    }

    /** acalloc; -1 stands for the simulator giving up with too many events. */
    method AcAlloc() returns (ta: int)
      requires ListsOk()
      modifies this`freelist, this`pool
      ensures ta == NULL <==> old(pool) == []
      ensures ta == NULL ==> pool == old(pool) && freelist == old(freelist)
      ensures ta != NULL ==> old(pool)[0] == ta && pool == old(pool)[1..] && IsList(next[..], freelist, pool)
    {
      if freelist == NULL {
        return NULL;
      }
      ta := freelist;
      Unlink(next[..], freelist, pool, 0);
      assert Without(pool, 0) == pool[1..];
      freelist := next[ta];
      pool := pool[1..];
    }

    /** acfree */
    method AcFree(ta: int)
      requires next.Length == maxActions && IsList(next[..], freelist, pool) && 0 <= ta < maxActions && ta !in pool
      modifies this`freelist, this`pool, next
      ensures IsList(next[..], freelist, pool) && pool == [ta] + old(pool)
      ensures next[..] == old(next[..])[ta := old(freelist)]
    {
      PushFront(next[..], freelist, pool, ta);
      next[ta] := freelist;
      freelist := ta;
      pool := [ta] + pool;
      assert next[..] == old(next[..])[ta := old(freelist)];
    }

    /** schedule_event's search for the insertion point; -1 as `prev` means the head pointer. */
    method FindSlot(t: int) returns (prev: int, cur: int, ghost i: nat)
      requires next.Length == clocksat.Length && IsList(next[..], queuehead, queue)
      ensures i <= |queue| && cur == At(queue, i) && prev == (if i == 0 then NULL else queue[i - 1])
      ensures forall k :: 0 <= k < i ==> clocksat[queue[k]] <= t
      ensures i < |queue| ==> t < clocksat[queue[i]]
    {
      prev, cur, i := NULL, queuehead, 0;
      while cur != NULL && clocksat[cur] <= t
        invariant i <= |queue| && cur == At(queue, i) && prev == (if i == 0 then NULL else queue[i - 1])
        invariant forall k :: 0 <= k < i ==> clocksat[queue[k]] <= t
        decreases |queue| - i
      {
        prev, cur := cur, next[cur];
        i := i + 1;
      }
    }

    /** The sorted insert itself: node n goes between prev and cur. */
    method LinkNode(n: int, prev: int, cur: int, ghost i: nat)
      requires next.Length == maxActions && IsList(next[..], queuehead, queue) && IsList(next[..], freelist, pool)
      requires 0 <= n < maxActions && n !in queue && n !in pool && forall x :: x in queue ==> x !in pool
      requires i <= |queue| && cur == At(queue, i) && prev == (if i == 0 then NULL else queue[i - 1])
      modifies this`queuehead, this`queue, next
      ensures queue == With(old(queue), i, n)
      ensures IsList(next[..], queuehead, queue) && IsList(next[..], freelist, pool)
    {
      Untouched(next[..], freelist, pool, n, cur);
      if i == 0 {
        PushFront(next[..], queuehead, queue, n);
        assert With(queue, 0, n) == [n] + queue;
      } else {
        Link(next[..], queuehead, queue, i, n);
        Untouched(next[..][n := cur], freelist, pool, prev, n);
      }
      next[n] := cur;
      assert next[..] == old(next[..])[n := cur];
      if prev == NULL {
        queuehead := n;
      } else {
        next[prev] := n;
        assert next[..] == old(next[..])[n := cur][prev := n];
      }
      queue := With(queue, i, n);
    }

    /** schedule_event once it has a node: fill it in and insert it where it belongs. */
    method Place(n: int, t: int) returns (ghost i: nat)
      requires next.Length == clocksat.Length == maxActions && next != clocksat
      requires IsList(next[..], queuehead, queue) && IsList(next[..], freelist, pool)
      requires 0 <= n < maxActions && n !in queue && n !in pool && forall x :: x in queue ==> x !in pool
      modifies this`queuehead, this`queue, next, clocksat
      ensures IsList(next[..], queuehead, queue) && IsList(next[..], freelist, pool)
      ensures i <= |old(queue)| && queue == With(old(queue), i, n)
      ensures forall k :: 0 <= k < i ==> 0 <= old(queue)[k] < maxActions && old(clocksat[..])[old(queue)[k]] <= t
      ensures i < |old(queue)| ==> 0 <= old(queue)[i] < maxActions && t < old(clocksat[..])[old(queue)[i]]
      ensures clocksat[..] == old(clocksat[..])[n := t]
    {
      clocksat[n] := t;
      assert clocksat[..] == old(clocksat[..])[n := t];
      var prev, cur;
      prev, cur, i := FindSlot(t);
      LinkNode(n, prev, cur, i);
    }

    /** schedule_event from the allocation on; -1 when there is no node. */
    method Enqueue(t: int) returns (n: int, ghost i: nat)
      requires ListsOk()
      modifies this`freelist, this`pool, this`queuehead, this`queue, next, clocksat
      ensures ListsOk() && (n == NULL <==> old(pool) == [])
      ensures n == NULL ==> queue == old(queue) && clocksat[..] == old(clocksat[..])
      ensures n != NULL ==> 0 <= n < maxActions && n !in old(queue) && i <= |old(queue)| && queue == With(old(queue), i, n)
      ensures n != NULL ==> forall k :: 0 <= k < i ==> 0 <= old(queue)[k] < maxActions && old(clocksat[..])[old(queue)[k]] <= t
      ensures n != NULL && i < |old(queue)| ==> 0 <= old(queue)[i] < maxActions && t < old(clocksat[..])[old(queue)[i]]
      ensures n != NULL ==> clocksat[..] == old(clocksat[..])[n := t]
    {
      i := 0;
      n := AcAlloc();
      if n == NULL {
        return;
      }
      i := Place(n, t);
      WithMembers(old(queue), i, n);
    }

    /**
     schedule_event for a delay of `nsecs` nanoseconds, stretched by up to one percent; false
     means the pool is empty and the simulator stops.
     */
    method Schedule(nsecs: nat, jitter: nat) returns (ok: bool)
      requires Valid() && jitter <= nsecs / 100
      modifies this`freelist, this`pool, this`queuehead, this`queue, this`pending, this`due, next, clocksat
      ensures Valid() && (ok <==> old(pool) != [])
      ensures ok ==> old(due) <= due && DueAfter(due, |old(due)|, [(nsecs, jitter)], nowClocks) && |queue| == |old(queue)| + 1
      ensures !ok ==> due == old(due) && queue == old(queue)
      ensures old(FiringNow()) ==> FiringNow() && queue[0] == old(queue[0])
    {
      var t := DueTime(nowClocks, (nsecs, jitter));
      var n, i := Enqueue(t);
      if n == NULL {
        return false;
      }
      HeadStays(old(queue), old(clocksat[..]), i, n, t, nowClocks);
      HistoryInsert(due, fired, firedAt, nowClocks, pending, i, t);
      TimedInsert(due, pending, old(queue), old(clocksat[..]), i, n, t);
      pending, due := With<nat>(pending, i, |due|), due + [t];
      return true;
    }

    /** The event at the head of the queue is due this very clock. */
    ghost predicate FiringNow()
      reads this, clocksat
    {
      queue != [] && 0 <= queue[0] < clocksat.Length && clocksat[queue[0]] == nowClocks
    }

    /** Virtual time in nanoseconds. */
    function Time(): int
      reads this
    {
      nowSecs * NSECS_PER_SEC + nowNsecs
    }

    /** A callback at work: it schedules its events while its own node still heads the queue. */
    method RunCallback(c: Callback) returns (ok: bool)
      requires Valid() && FiringNow() && Stretched(c)
      modifies this`freelist, this`pool, this`queuehead, this`queue, this`pending, this`due, next, clocksat
      ensures Valid() && FiringNow() && queue[0] == old(queue[0]) && old(due) <= due
      ensures ok ==> DueAfter(due, |old(due)|, c, nowClocks) && |queue| == |old(queue)| + |c|
      ensures ok <==> |c| <= |old(pool)|
    {
      var i := 0;
      while i < |c|
        invariant 0 <= i <= |c|
        invariant Valid() && FiringNow() && queue[0] == old(queue[0])
        invariant old(due) <= due && DueAfter(due, |old(due)|, c[..i], nowClocks) && |queue| == |old(queue)| + i
      {
        ghost var due0 := due;
        var done := Schedule(c[i].0, c[i].1);
        if !done {
          return false;
        }
        assert due == due0 + due[|due0|..] && c[..i + 1] == c[..i] + [(c[i].0, c[i].1)];
        DueAfterNext(due0, |old(due)|, c[..i], nowClocks, due[|due0|..], [(c[i].0, c[i].1)]);
        i := i + 1;
      }
      assert c[..i] == c;
      return true;
    }

    /** The node at the head of the queue goes back to the pool. */
    method Recycle()
      requires ListsOk() && queue != []
      modifies this`freelist, this`pool, this`queuehead, this`queue, next
      ensures ListsOk() && queue == old(queue)[1..]
    {
      var ta := queuehead;
      Unlink(next[..], queuehead, queue, 0);
      assert Without(queue, 0) == queue[1..];
      queuehead := next[ta];
      queue := queue[1..];
      Untouched(next[..], queuehead, queue, ta, freelist);
      AcFree(ta);
    }

    /** The end of an iteration of check_queue: the node that fired leaves the queue. */
    method DropHead()
      requires Valid() && FiringNow()
      modifies this`freelist, this`pool, this`queuehead, this`queue, this`pending, this`fired, this`firedAt, next
      ensures Valid() && queue == old(queue)[1..]
      ensures fired == old(fired) + [old(pending[0])] && firedAt == old(firedAt) + [nowClocks]
    {
      HistoryFire(due, fired, firedAt, nowClocks, pending);
      fired, firedAt, pending := fired + [pending[0]], firedAt + [nowClocks], pending[1..];
      Recycle();
    }

    /**
     check_queue. The k-th callback it runs does what script[k] says, and callbacks after
     those in the script schedule nothing. False: an allocation failed and the simulator stopped.
     */
    method CheckQueue(script: seq<Callback>) returns (ok: bool, ghost ran: nat)
      requires Valid() && AllStretched(script)
      modifies this`freelist, this`pool, this`queuehead, this`queue, this`pending, this`due, this`fired, this`firedAt, next, clocksat
      ensures Valid() && old(due) <= due && old(fired) <= fired
      ensures ok ==> !FiringNow() && ran == Ran(script, |fired| - |old(fired)|) && DueAfter(due, |old(due)|, Scheduled(script, ran), nowClocks)
      ensures old(firedAt) <= firedAt && FiredSince(|old(fired)|, nowClocks)
      ensures |Scheduled(script, |script|)| <= |old(pool)| ==> ok
      ensures old(queue) == [] ==> fired == old(fired) && due == old(due) && queue == []
    {
      var k := 0;
      ran := 0;
      while queuehead != NULL
        invariant 0 <= k <= |script| && Valid() && Swept(script, k, old(due), old(fired), old(firedAt), |old(queue)|)
        invariant old(queue) == [] ==> queue == [] && fired == old(fired) && due == old(due)
        decreases |script| - k, |queue|
      {
        if clocksat[queuehead] != nowClocks {
          return true, k;
        }
        ok, k := FireNext(script, k, old(due), old(fired), old(firedAt), |old(queue)|);
        if !ok {
          return false, k;
        }
      }
      return true, k;
    }

    /** How far check_queue has come: k callbacks have run, all at this clock, and have scheduled what they should. */
    ghost predicate Swept(script: seq<Callback>, k: nat, due0: seq<int>, fired0: seq<nat>, firedAt0: seq<int>, waiting: nat)
      reads this
    {
      && due0 <= due && fired0 <= fired && firedAt0 <= firedAt && FiredSince(|fired0|, nowClocks)
      && k == Ran(script, |fired| - |fired0|) && DueAfter(due, |due0|, Scheduled(script, k), nowClocks)
      && |queue| <= waiting + |Scheduled(script, k)|
    }

    method FireNext(script: seq<Callback>, k: nat, ghost due0: seq<int>, ghost fired0: seq<nat>, ghost firedAt0: seq<int>, ghost waiting: nat)
      returns (ok: bool, k': nat)
      requires Valid() && FiringNow() && AllStretched(script) && k <= |script| && Swept(script, k, due0, fired0, firedAt0, waiting)
      modifies this`freelist, this`pool, this`queuehead, this`queue, this`pending, this`due, this`fired, this`firedAt, next, clocksat
      ensures Valid() && k <= k' <= |script| && due0 <= due && fired0 <= fired && firedAt0 <= firedAt && FiredSince(|fired0|, nowClocks)
      ensures ok ==> Swept(script, k', due0, fired0, firedAt0, waiting) && (k' == k ==> |queue| < |old(queue)|)
      ensures waiting + |Scheduled(script, |script|)| <= maxActions ==> ok
    {
      var c := if k < |script| then script[k] else [];
      ScheduledGrows(script, k);
      ok := FireHead(c);
      k' := if k < |script| then k + 1 else k;
      if ok {
        assert due == old(due) + due[|old(due)|..];
        DueAfterNext(old(due), |due0|, Scheduled(script, k), nowClocks, due[|old(due)|..], c);
        assert k == |script| ==> Scheduled(script, k) + c == Scheduled(script, k);
      }
    }

    /** One event fires: its callback runs, then its node leaves the queue. */
    method FireHead(c: Callback) returns (ok: bool)
      requires Valid() && FiringNow() && Stretched(c)
      modifies this`freelist, this`pool, this`queuehead, this`queue, this`pending, this`due, this`fired, this`firedAt, next, clocksat
      ensures Valid() && old(due) <= due && old(fired) <= fired && old(queue) != []
      ensures ok ==> DueAfter(due, |old(due)|, c, nowClocks) && |queue| == |old(queue)| + |c| - 1
      ensures ok <==> |c| <= |old(pool)|
      ensures if ok then firedAt == old(firedAt) + [nowClocks] else firedAt == old(firedAt)
    {
      ok := RunCallback(c);
      if ok {
        DropHead();
      }
    }

    /** All events that fired after the first n did so at clock `at`. */
    ghost predicate FiredSince(n: nat, at: int)
      reads this
    {
      n <= |fired| == |firedAt| && forall i :: n <= i < |firedAt| ==> firedAt[i] == at
    }

    /** clock_advance: virtual time moves on by exactly nsecs, then due events fire. */
    method ClockAdvance(nsecs: int, script: seq<Callback>) returns (ok: bool, ghost ran: nat)
      requires Valid() && AllStretched(script) && 0 <= nsecs < NSECS_PER_SEC
      modifies this`nowSecs, this`nowNsecs
      modifies this`freelist, this`pool, this`queuehead, this`queue, this`pending, this`due, this`fired, this`firedAt, next, clocksat
      ensures Valid() && old(due) <= due && old(fired) <= fired
      ensures ok ==> !FiringNow() && ran == Ran(script, |fired| - |old(fired)|) && DueAfter(due, |old(due)|, Scheduled(script, ran), nowClocks)
      ensures old(firedAt) <= firedAt && FiredSince(|old(fired)|, nowClocks)
      ensures |Scheduled(script, |script|)| <= |old(pool)| ==> ok
      ensures old(queue) == [] ==> fired == old(fired) && due == old(due) && queue == []
      ensures Time() == old(Time()) + nsecs
    {
      var tmp := nowNsecs + nsecs;
      if tmp >= NSECS_PER_SEC {
        tmp := tmp - NSECS_PER_SEC;
        nowSecs := nowSecs + 1;
      }
      nowNsecs := tmp;
      ok, ran := CheckQueue(script);
    }

    /** clock_tick */
    method Tick(script: seq<Callback>) returns (ok: bool, ghost ran: nat)
      requires Valid() && AllStretched(script)
      modifies this`nowSecs, this`nowNsecs, this`nowClocks
      modifies this`freelist, this`pool, this`queuehead, this`queue, this`pending, this`due, this`fired, this`firedAt, next, clocksat
      ensures Valid() && old(due) <= due && old(fired) <= fired && Time() == old(Time()) + NSECS_PER_CLOCK
      ensures nowClocks == old(nowClocks) + if ok then 1 else 0
      ensures ok ==> ran == Ran(script, |fired| - |old(fired)|) && DueAfter(due, |old(due)|, Scheduled(script, ran), old(nowClocks))
      ensures old(firedAt) <= firedAt && FiredSince(|old(fired)|, old(nowClocks))
      ensures |Scheduled(script, |script|)| <= |old(pool)| ==> ok
    {
      ok, ran := ClockAdvance(NSECS_PER_CLOCK, script);
      if ok {
        HistoryWait(due, fired, firedAt, nowClocks, pending, nowClocks + 1);
        nowClocks := nowClocks + 1;
      }
    }

    /** clock_dowait up to the point where it looks at the host's clock; `screwed` is its own alarm. */
    method DoWait(secs: int, nsecs: int, clocks: int, script: seq<Callback>)
      returns (ok: bool, screwed: bool, ghost ran: nat)
      requires Valid() && AllStretched(script) && 0 <= nsecs < NSECS_PER_SEC && 0 <= clocks
      requires queuehead != NULL ==> nowClocks + clocks <= clocksat[queuehead]
      modifies this`nowSecs, this`nowNsecs, this`nowClocks
      modifies this`freelist, this`pool, this`queuehead, this`queue, this`pending, this`due, this`fired, this`firedAt, next, clocksat
      ensures Valid() && old(due) <= due && old(fired) <= fired && !screwed
      ensures nowClocks == old(nowClocks) + clocks && Time() == old(Time()) + secs * NSECS_PER_SEC + nsecs
      ensures ok ==> !FiringNow() && ran == Ran(script, |fired| - |old(fired)|) && DueAfter(due, |old(due)|, Scheduled(script, ran), nowClocks)
      ensures old(firedAt) <= firedAt && FiredSince(|old(fired)|, nowClocks)
      ensures |Scheduled(script, |script|)| <= |old(pool)| ==> ok
    {
      HistoryWait(due, fired, firedAt, nowClocks, pending, nowClocks + clocks);
      nowClocks := nowClocks + clocks;
      nowSecs := nowSecs + secs;
      ok, ran := ClockAdvance(nsecs, script);
      screwed := queuehead != NULL && clocksat[queuehead] < nowClocks;
    }

    /**
     One round of clock_waitirq: sleep until the next event, or, when none is pending, for as
     long as the host says it slept. Either way the alarm of clock_dowait never sounds.
     */
    method WaitStep(sec1: int, usec1: int, sec2: int, usec2: int, script: seq<Callback>)
      returns (ok: bool, screwed: bool, ghost ran: nat)
      requires Valid() && AllStretched(script) && 0 <= usec1 < 1_000_000 && 0 <= usec2 < 1_000_000
      modifies this`nowSecs, this`nowNsecs, this`nowClocks
      modifies this`freelist, this`pool, this`queuehead, this`queue, this`pending, this`due, this`fired, this`firedAt, next, clocksat
      ensures Valid() && old(due) <= due && old(fired) <= fired && !screwed
      ensures old(queue) != [] ==> Time() == old(Time()) + (nowClocks - old(nowClocks)) * NSECS_PER_CLOCK
      ensures old(queue) != [] ==> nowClocks == old(clocksat[queue[0]]) && (ok ==> old(pending[0]) in fired)
      ensures old(queue) == [] ==> nowClocks == old(nowClocks) && fired == old(fired) && due == old(due)
      ensures old(queue) == [] ==> Time() == old(Time()) + Idled(sec1, usec1, sec2, usec2)
      ensures ok ==> ran == Ran(script, |fired| - |old(fired)|) && DueAfter(due, |old(due)|, Scheduled(script, ran), nowClocks)
      ensures old(firedAt) <= firedAt && FiredSince(|old(fired)|, nowClocks)
      ensures |Scheduled(script, |script|)| <= |old(pool)| ==> ok
    {
      if queuehead != NULL {
        var clocks := clocksat[queuehead] - nowClocks;
        var nsecs := clocks * NSECS_PER_CLOCK;
        ghost var e := pending[0];
        ok, screwed, ran := DoWait(nsecs / NSECS_PER_SEC, nsecs % NSECS_PER_SEC, clocks, script);
        if ok {
          AllDueFired(due, fired, firedAt, nowClocks, pending, e);
        }
      } else {
        var slept := Slept(sec1, usec1, sec2, usec2);
        SleptExactlyWhen(sec1, usec1, sec2, usec2);
        nowSecs := nowSecs + slept.0;
        ok, ran := ClockAdvance(slept.1 * 1000, script);
        screwed := false;
      }
    }

    /** One thing that happens to the clock; `gain` is the virtual time it passes without any clocks. */
    method Perform(a: Action) returns (ok: bool, screwed: bool, ghost gain: int, ghost ran: nat)
      requires Valid() && ActionOk(a)
      modifies this`nowSecs, this`nowNsecs, this`nowClocks
      modifies this`freelist, this`pool, this`queuehead, this`queue, this`pending, this`due, this`fired, this`firedAt, next, clocksat
      ensures Valid() && old(due) <= due && old(fired) <= fired && old(nowClocks) <= nowClocks && !screwed
      ensures a.Post? ==> (ok <==> old(pool) != []) && nowClocks == old(nowClocks) && fired == old(fired)
      ensures ok ==> Time() == old(Time()) + (nowClocks - old(nowClocks)) * NSECS_PER_CLOCK + gain
      ensures gain == if a.Await? && old(queue) == [] then Idled(a.sec1, a.usec1, a.sec2, a.usec2) else 0
      ensures ok ==> ran == Ran(CallbacksOf(a), |fired| - |old(fired)|) && DueAfter(due, |old(due)|, Posted(a, ran), ClockOf(a, old(nowClocks), nowClocks))
      ensures old(firedAt) <= firedAt && FiredSince(|old(fired)|, ClockOf(a, old(nowClocks), nowClocks))
      ensures |Posted(a, |CallbacksOf(a)|)| <= |old(pool)| ==> ok
    {
      gain := if a.Await? && queue == [] then Idled(a.sec1, a.usec1, a.sec2, a.usec2) else 0;
      screwed := false;
      match a {
        case Post(nsecs, jitter) =>
          ok := Schedule(nsecs, jitter);
          ran := 0;
        case TickOnce(callbacks) =>
          ok, ran := Tick(callbacks);
        case Await(sec1, usec1, sec2, usec2, callbacks) =>
          ok, screwed, ran := WaitStep(sec1, usec1, sec2, usec2, callbacks);
      }
    }

    /** One more action of a run, with what it schedules and fires put on record. */
    method PerformNext(actions: seq<Action>, k: nat, ghost zero: Stamp, ghost n: nat, ghost asks: seq<Ask>, ghost f: nat, ghost shots: seq<Stamp>,
                       ghost idled: int)
      returns (ok: bool, screwed: bool, ghost gain: int, ghost asks': seq<Ask>, ghost shots': seq<Stamp>)
      requires Valid() && k < |actions| && ActionOk(actions[k]) && InStep(zero, Stamp(nowClocks, Time(), idled, false))
      requires Logged(zero, due, n, asks, firedAt, f, shots) && AsksFrom(asks, actions)
      modifies this`nowSecs, this`nowNsecs, this`nowClocks
      modifies this`freelist, this`pool, this`queuehead, this`queue, this`pending, this`due, this`fired, this`firedAt, next, clocksat
      ensures Valid() && old(due) <= due && old(fired) <= fired && old(nowClocks) <= nowClocks && !screwed
      ensures ok ==> InStep(zero, Stamp(nowClocks, Time(), idled + gain, false)) && GainOk(gain, actions[k])
      ensures ok ==> Logged(zero, due, n, asks', firedAt, f, shots') && AsksFrom(asks', actions)
    {
      ghost var ran;
      ok, screwed, gain, ran := Perform(actions[k]);
      asks', shots' := asks, shots;
      if ok {
        ghost var at := Moment(actions[k], old(nowClocks), old(Time()), nowClocks, Time(), idled + gain);
        ghost var posted := Posted(actions[k], ran);
        PostedStretched(actions[k], ran);
        LoggedNext(zero, old(due), n, asks, old(firedAt), f, shots, due, firedAt, posted, at, k);
        AsksFromNext(asks, actions, posted, at, k, ran);
        asks', shots' := asks + AsksAt(posted, at, k), shots + seq(|firedAt| - |old(firedAt)|, _ => at);
      }
    }

    /**
     Whole runs, for as long as there are nodes for the events: every event fires at most once, at its
     own clock, by the time that clock is past, in order of time and among ties first come first
     served; the alarm never sounds; virtual time is the clocks run plus what was idled away.
     */
    method Run(actions: seq<Action>)
      returns (ok: bool, screwed: bool, ghost gains: seq<int>, ghost asks: seq<Ask>, ghost shots: seq<Stamp>)
      requires Valid() && forall k :: 0 <= k < |actions| ==> ActionOk(actions[k])
      modifies this`nowSecs, this`nowNsecs, this`nowClocks
      modifies this`freelist, this`pool, this`queuehead, this`queue, this`pending, this`due, this`fired, this`firedAt, next, clocksat
      ensures Valid() && old(due) <= due && old(fired) <= fired && old(nowClocks) <= nowClocks
      ensures FiredRight(due, fired, firedAt, nowClocks) && !screwed
      ensures ok ==> |gains| == |actions| && Time() == old(Time()) + (nowClocks - old(nowClocks)) * NSECS_PER_CLOCK + Total(gains)
      ensures ok ==> forall k :: 0 <= k < |actions| ==> GainOk(gains[k], actions[k])
      ensures ok ==> OnTime(due, |old(due)|, asks, fired, |old(fired)|, shots) && AsksFrom(asks, actions)
    {
      ok, screwed, gains, asks, shots := true, false, [], [], [];
      ghost var zero := Stamp(nowClocks, Time(), 0, false);
      var k := 0;
      while k < |actions| && ok
        invariant 0 <= k <= |actions| && !screwed && Valid() && old(due) <= due && old(fired) <= fired && old(nowClocks) <= nowClocks
        invariant ok ==> |gains| == k && Time() == old(Time()) + (nowClocks - old(nowClocks)) * NSECS_PER_CLOCK + Total(gains)
        invariant ok ==> forall i :: 0 <= i < k ==> GainOk(gains[i], actions[i])
        invariant ok ==> Logged(zero, due, |old(due)|, asks, firedAt, |old(fired)|, shots) && AsksFrom(asks, actions)
        decreases |actions| - k
      {
        var alarm;
        ghost var gain;
        ok, alarm, gain, asks, shots := PerformNext(actions, k, zero, |old(due)|, asks, |old(fired)|, shots, Total(gains));
        screwed := screwed || alarm;
        gains := gains + [gain];
        k := k + 1;
      }
      HistoryRight(due, fired, firedAt, nowClocks, pending);
      if ok {
        LoggedOnTime(zero, due, |old(due)|, asks, fired, firedAt, |old(fired)|, shots);
      }
    }
  }

  /** What happens to the clock: an event is scheduled, a cycle passes, or the machine waits for an interrupt. */
  datatype Action =
    | Post(nsecs: nat, jitter: nat)
    | TickOnce(callbacks: seq<Callback>)
    | Await(sec1: int, usec1: int, sec2: int, usec2: int, callbacks: seq<Callback>)

  ghost predicate ActionOk(a: Action) {
    match a
    case Post(nsecs, jitter) => jitter <= nsecs / 100
    case TickOnce(callbacks) => AllStretched(callbacks)
    case Await(_, usec1, _, usec2, callbacks) => 0 <= usec1 < 1_000_000 && 0 <= usec2 < 1_000_000 && AllStretched(callbacks)
  }

  function CallbacksOf(a: Action): seq<Callback> { if a.Post? then [] else a.callbacks }

  /** The delays of the events that an action schedules when it runs n callbacks. */
  ghost function Posted(a: Action, n: nat): Callback
    requires n <= |CallbacksOf(a)|
  {
    if a.Post? then [(a.nsecs, a.jitter)] else Scheduled(a.callbacks, n)
  }

  /** The clock at which an action fires and schedules events: a tick moves it on only afterwards. */
  function ClockOf(a: Action, before: int, after: int): int { if a.TickOnce? then before else after }

  /** A moment: the clock, the virtual time, the time idled away so far, and whether it is in a tick, which has moved time on already. */
  datatype Stamp = Stamp(clock: int, time: int, idled: int, ticking: bool)

  /** An event asked for: its delay in nanoseconds, the stretch, when, and by which action. */
  datatype Ask = Ask(delay: nat, jitter: nat, at: Stamp, action: nat)

  function Ahead(ticking: bool): int { if ticking then NSECS_PER_CLOCK else 0 }

  /** Virtual time since `zero` is the clocks, the time idled away, and in a tick one clock more. */
  ghost predicate InStep(zero: Stamp, s: Stamp) {
    s.time == zero.time + (s.clock - zero.clock) * NSECS_PER_CLOCK + s.idled + Ahead(s.ticking)
  }

  /** The moment at which an action fires and schedules events. */
  function Moment(a: Action, clock: int, time: int, clock': int, time': int, idled: int): Stamp {
    if a.TickOnce? then Stamp(clock, time + NSECS_PER_CLOCK, idled, true) else Stamp(clock', time', idled, false)
  }

  ghost function AsksAt(c: Callback, at: Stamp, action: nat): seq<Ask> {
    seq(|c|, (k: int) requires 0 <= k < |c| => Ask(c[k].0, c[k].1, at, action))
  }

  /** Each event from number n on is due after its delay, and each from number f on fired at its clock, all in step with virtual time. */
  ghost predicate Logged(zero: Stamp, due: seq<int>, n: nat, asks: seq<Ask>, firedAt: seq<int>, f: nat, shots: seq<Stamp>) {
    && |due| == n + |asks| && |firedAt| == f + |shots|
    && (forall e :: 0 <= e < |asks| ==> AskOk(zero, due, n, asks, e))
    && (forall i :: 0 <= i < |shots| ==> ShotOk(zero, firedAt, f, shots, i))
  }

  ghost predicate AskOk(zero: Stamp, due: seq<int>, n: nat, asks: seq<Ask>, e: nat)
    requires |due| == n + |asks| && e < |asks|
  {
    var a := asks[e];
    a.jitter <= a.delay / 100 && DelayOk(a.delay + a.jitter, due[n + e] - a.at.clock) && InStep(zero, a.at)
  }

  ghost predicate ShotOk(zero: Stamp, firedAt: seq<int>, f: nat, shots: seq<Stamp>, i: nat)
    requires |firedAt| == f + |shots| && i < |shots|
  {
    shots[i].clock == firedAt[f + i] && InStep(zero, shots[i])
  }

  lemma LoggedNext(zero: Stamp, due: seq<int>, n: nat, asks: seq<Ask>, firedAt: seq<int>, f: nat, shots: seq<Stamp>,
                   due': seq<int>, firedAt': seq<int>, c: Callback, at: Stamp, action: nat)
    requires Logged(zero, due, n, asks, firedAt, f, shots) && InStep(zero, at) && Stretched(c)
    requires due <= due' && DueAfter(due', |due|, c, at.clock)
    requires firedAt <= firedAt' && forall i :: |firedAt| <= i < |firedAt'| ==> firedAt'[i] == at.clock
    ensures Logged(zero, due', n, asks + AsksAt(c, at, action), firedAt', f, shots + seq(|firedAt'| - |firedAt|, _ => at))
  {
    var asks', shots' := asks + AsksAt(c, at, action), shots + seq(|firedAt'| - |firedAt|, _ => at);
    forall e | 0 <= e < |asks'|
      ensures AskOk(zero, due', n, asks', e)
    {
      assert if e < |asks| then AskOk(zero, due, n, asks, e) else DueAt(due', |due|, c, at.clock, e - |asks|);
    }
    forall i | 0 <= i < |shots'|
      ensures ShotOk(zero, firedAt', f, shots', i)
    {
      assert i < |shots| ==> ShotOk(zero, firedAt, f, shots, i);
    }
  }

  lemma {:induction false} ScheduledGrows(script: seq<Callback>, k: nat)
    requires k <= |script|
    ensures |Scheduled(script, k)| <= |Scheduled(script, |script|)|
    ensures k < |script| ==> |Scheduled(script, k)| + |script[k]| <= |Scheduled(script, |script|)|
    decreases |script| - k
  {
    if k < |script| {
      ScheduledGrows(script, k + 1);
    }
  }

  lemma {:induction false} ScheduledStretched(script: seq<Callback>, n: nat)
    requires n <= |script| && AllStretched(script)
    ensures Stretched(Scheduled(script, n))
  {
    if n > 0 {
      ScheduledStretched(script, n - 1);
    }
  }

  lemma PostedStretched(a: Action, n: nat)
    requires ActionOk(a) && n <= |CallbacksOf(a)|
    ensures Stretched(Posted(a, n))
  {
    if !a.Post? {
      ScheduledStretched(a.callbacks, n);
    }
  }

  /** The delay is one that the action asks for. */
  ghost predicate AsksFor(a: Action, delay: (nat, nat)) {
    exists n: nat :: n <= |CallbacksOf(a)| && delay in Posted(a, n)
  }

  ghost predicate AsksFrom(asks: seq<Ask>, actions: seq<Action>) {
    forall e :: 0 <= e < |asks| ==> asks[e].action < |actions| && AsksFor(actions[asks[e].action], (asks[e].delay, asks[e].jitter))
  }

  lemma AsksFromNext(asks: seq<Ask>, actions: seq<Action>, posted: Callback, at: Stamp, action: nat, n: nat)
    requires AsksFrom(asks, actions) && action < |actions| && n <= |CallbacksOf(actions[action])| && posted == Posted(actions[action], n)
    ensures AsksFrom(asks + AsksAt(posted, at, action), actions)
  {
    forall k | 0 <= k < |posted|
      ensures AsksFor(actions[action], (posted[k].0, posted[k].1))
    {
      assert posted[k] in Posted(actions[action], n);
    }
  }

  /** Every event that has been scheduled and has fired did so right on time. */
  ghost predicate OnTime(due: seq<int>, n: nat, asks: seq<Ask>, fired: seq<nat>, f: nat, shots: seq<Stamp>) {
    && |due| == n + |asks| && |fired| == f + |shots|
    && forall i :: f <= i < |fired| && n <= fired[i] ==> fired[i] < |due| && ShotOnTime(asks[fired[i] - n], due[fired[i]], shots[i - f])
  }

  /** As many clocks later as its delay makes, plus what was idled away, give or take a tick under way. */
  ghost predicate ShotOnTime(a: Ask, due: int, s: Stamp) {
    && a.jitter <= a.delay / 100 && DelayOk(a.delay + a.jitter, due - a.at.clock) && s.clock == due
    && s.time - a.at.time == (due - a.at.clock) * NSECS_PER_CLOCK + (s.idled - a.at.idled) + (Ahead(s.ticking) - Ahead(a.at.ticking))
  }

  lemma LoggedOnTime(zero: Stamp, due: seq<int>, n: nat, asks: seq<Ask>, fired: seq<nat>, firedAt: seq<int>, f: nat, shots: seq<Stamp>)
    requires Logged(zero, due, n, asks, firedAt, f, shots) && |firedAt| == |fired|
    requires forall i :: 0 <= i < |fired| ==> fired[i] < |due| && firedAt[i] == due[fired[i]]
    ensures OnTime(due, n, asks, fired, f, shots)
  {
    forall i | f <= i < |fired| && n <= fired[i]
      ensures ShotOnTime(asks[fired[i] - n], due[fired[i]], shots[i - f])
    {
      assert AskOk(zero, due, n, asks, fired[i] - n) && ShotOk(zero, firedAt, f, shots, i - f);
    }
  }

  /**
   So an event asked for with a delay of d nanoseconds fires, with no time idled away, later than d - 40 and
   no later than d and its stretch of one percent, if it is asked for in a tick and fires in one, or neither.
   If only one is in a tick, it is a clock early or late, and in that window exactly if the stretch allows.
   */
  lemma WindowExactly(a: Ask, due: int, s: Stamp)
    requires ShotOnTime(a, due, s) && s.idled == a.at.idled
    ensures var d, after, part := a.delay, s.time - a.at.time, (a.delay + a.jitter) % NSECS_PER_CLOCK;
            && (d - NSECS_PER_CLOCK < after <==> s.ticking || !a.at.ticking || part < a.jitter)
            && (after <= d + d / 100 <==> !s.ticking || a.at.ticking || NSECS_PER_CLOCK + a.jitter - part <= d / 100)
  {
    var c := due - a.at.clock;
    RemainderIs(a.delay + a.jitter, NSECS_PER_CLOCK, c, a.delay + a.jitter - c * NSECS_PER_CLOCK);
  }

  ghost predicate GainOk(gain: int, a: Action) {
    gain == 0 || (a.Await? && gain == Idled(a.sec1, a.usec1, a.sec2, a.usec2))
  }

  ghost function Total(gains: seq<int>): int {
    if gains == [] then 0 else Total(gains[..|gains| - 1]) + gains[|gains| - 1]
  }

  /** Every event fires at most once, at its own clock, by the time that clock is past, and in order. */
  ghost predicate FiredRight(due: seq<int>, fired: seq<nat>, firedAt: seq<int>, now: int) {
    && |firedAt| == |fired| && (forall i :: 0 <= i < |fired| ==> fired[i] < |due| && firedAt[i] == due[fired[i]])
    && (forall i, j :: 0 <= i < j < |fired| ==> fired[i] != fired[j] && Before(due, fired[i], fired[j]))
    && (forall e :: 0 <= e < |due| && due[e] < now ==> e in fired)
  }

  lemma HistoryRight(due: seq<int>, fired: seq<nat>, firedAt: seq<int>, now: int, pending: seq<nat>)
    requires History(due, fired, firedAt, now, pending)
    ensures FiredRight(due, fired, firedAt, now)
  {
    assert forall i :: 0 <= i < |fired| ==> (fired + pending)[i] == fired[i];
    forall e | 0 <= e < |due|
      ensures due[e] < now ==> e in fired
      ensures forall i, j :: 0 <= i < j < |fired| ==> !(fired[i] == fired[j] == e)
      ensures forall i, j :: 0 <= i < j < |fired| ==> Before(due, fired[i], fired[j])
    {
      FiresOnceOnTime(due, fired, firedAt, now, pending, e);
    }
  }

  /** A clock just started, with one event due at once. */
  method OneEvent(nodes: nat) returns (c: Events)
    requires nodes > 0
    ensures fresh(c) && fresh(c.next) && fresh(c.clocksat) && c.Valid() && c.nowClocks == c.Time() == 0
    ensures |c.due| == 1 && c.due[0] == 0 && c.fired == [] && |c.pool| == nodes - 1
  {
    c := new Events(nodes, 0, 0);
    assert |c.pool| == nodes;
    var _ := c.Schedule(0, 0);
    assert DueAt(c.due, 0, [(0, 0)], 0, 0);
  }

  /** Asked for outside a tick, fired in one: an event without delay fires 40 nanoseconds later. */
  method LateInstance() returns (c: Events)
    ensures c.Valid() && |c.due| == 1 && c.due[0] == 0 && c.fired == [0] && c.Time() == 40
  {
    c := OneEvent(1);
    var _, _ := c.Tick([]);
    FiresOnceOnTime(c.due, c.fired, c.firedAt, c.nowClocks, c.pending, 0);
  }

  /** A tick whose callback asks for an event 40 nanoseconds on, at time 40 already. */
  method AskInTick() returns (c: Events)
    ensures fresh(c) && fresh(c.next) && fresh(c.clocksat) && c.Valid() && c.nowClocks == 1 && c.Time() == 40
    ensures |c.due| == 2 && c.due[1] == 1 && c.fired == [0] && c.pending == [1]
  {
    c := OneEvent(2);
    var script: seq<Callback> := [[(40, 0)]];
    assert Scheduled(script, 1) == Scheduled(script, 0) + script[0] == [(40, 0)];
    var _, _ := c.Tick(script);
    FiresOnceOnTime(c.due, c.fired, c.firedAt, c.nowClocks, c.pending, 0);
    assert DueAt(c.due, 1, [(40, 0)], 0, 0);
    OneFired(c.due, c.fired, c.firedAt, c.pending);
  }

  lemma OneFired(due: seq<int>, fired: seq<nat>, firedAt: seq<int>, pending: seq<nat>)
    requires History(due, fired, firedAt, 1, pending) && |due| == 2 && due[0] == 0 && due[1] == 1
    requires forall i :: 0 <= i < |firedAt| ==> firedAt[i] == 0
    ensures fired == [0] && pending == [1]
  {
    FiresOnceOnTime(due, fired, firedAt, 1, pending, 0);
    FiresOnceOnTime(due, fired, firedAt, 1, pending, 1);
    assert forall i :: 0 <= i < |fired| ==> fired[i] == 0;
    assert |fired| == 1;
    assert pending[0] == 1;
  }

  /** Asked for in a tick, fired outside one: that event fires with no time gone by. */
  method EarlyInstance() returns (c: Events)
    ensures c.Valid() && c.Time() == 40 && 1 in c.fired
  {
    c := AskInTick();
    var _, _, _ := c.WaitStep(0, 0, 0, 0, []);
  }
}
