/**
 Threads and the priority scheduler (os161-1.11/kern/thread/thread.c and scheduler.c) as a
 state machine.  Each step is one stretch of code that runs with interrupts off; a context
 switch is the step that puts the current thread away followed, after any number of
 interrupts in the idle loop, by the step that picks the next one.
 */
module Arrays {
  /** A resizeable array (os161-1.11/kern/lib/array.c): its elements and its allocated size. */
  datatype Arr<T> = Arr(items: seq<T>, max: nat)

  /** array_preallocate's loop. */
  function GrownMax(max: nat, n: int): (r: nat)
    ensures max <= r && n <= r && (n <= max ==> r == max)
    decreases n - max
  {
    if n <= max then max else GrownMax((max + 1) * 2, n)
  }

  /** array_setsize(a, 0) gives the storage of a large array back. */
  function Cleared<T>(a: Arr<T>): Arr<T> {
    Arr([], if a.max > 16 then 0 else a.max)
  }

  /** Does array_add have to allocate? */
  predicate NeedsMemory<T>(a: Arr<T>) {
    |a.items| + 1 > a.max
  }

  function Added<T>(a: Arr<T>, x: T): Arr<T> {
    Arr(a.items + [x], GrownMax(a.max, |a.items| + 1))
  }
}

module Threads {
  import opened Prelude
  import opened Arrays
  import Queue

  type Tid = nat

  /** What a thread sleeps on: a semaphore or some other address. */
  datatype Addr = Sem(id: nat) | Other(id: nat)

  /** `unstarted` marks a thread that has never run. */
  datatype Thread = Thread(prio: nat, sleepaddr: Option<Addr>, vmspace: bool, cwd: bool, unstarted: bool)

  const NUM_PRIORITIES := 4
  const RUNQUEUE_SLOTS := 32
  const PRIORITY_NORMAL := 1

  /** `slots[p]` is the size of the ring behind run queue p, which holds at most slots[p] - 1 threads. */
  datatype State = State(
    threads: map<Tid, Thread>,
    cur: Option<Tid>,
    runq: seq<seq<Tid>>,
    slots: seq<nat>,
    sleepers: Arr<Tid>,
    zombies: Arr<Tid>,
    numthreads: int,
    forked: bool)

  /**
   The steps.  `mem` says whether the kmalloc a step may need succeeds, `grants` how many of
   those it needs in turn do; `vm` says whether the parent's address space is copied.
   */
  datatype Step =
    | Fork(t: Tid, vm: bool, grants: nat)
    | Yield(mem: bool)
    | Sleep(addr: Addr, mem: bool)
    | Exit(mem: bool)
    | Wakeup(addr: Addr, grants: nat)
    | Dispatch

  /** Panic is a failed assertion; Blocked means the step does not apply in this state. */
  datatype Outcome = Next(state: State) | Panic | Blocked

  // ---------------------------------------------------------------- the steps

  predicate Levels(s: State) { |s.runq| == |s.slots| == NUM_PRIORITIES }

  /** Adding to level p takes a larger ring. */
  predicate Full(s: State, p: nat)
    requires Levels(s) && p < NUM_PRIORITIES
  {
    |s.runq[p]| + 1 >= s.slots[p]
  }

  /** make_runnable, when the ring can be doubled if it has to be. */
  function Enqueue(s: State, t: Tid): State
    requires Levels(s) && t in s.threads && s.threads[t].prio < NUM_PRIORITIES
  {
    var p := s.threads[t].prio;
    s.(runq := s.runq[p := s.runq[p] + [t]], slots := s.slots[p := if Full(s, p) then 2 * s.slots[p] else s.slots[p]])
  }

  function EnqueueAll(s: State, ts: seq<Tid>): (s': State)
    requires Levels(s) && forall t :: t in ts ==> t in s.threads && s.threads[t].prio < NUM_PRIORITIES
    ensures s' == s.(runq := s'.runq, slots := s'.slots) && Levels(s')
    decreases |ts|
  {
    if ts == [] then s else EnqueueAll(Enqueue(s, ts[0]), ts[1..])
  }

  /** How many times rings are doubled on the way. */
  function Growths(s: State, ts: seq<Tid>): nat
    requires Levels(s) && forall t :: t in ts ==> t in s.threads && s.threads[t].prio < NUM_PRIORITIES
    decreases |ts|
  {
    if ts == [] then 0 else (if Full(s, s.threads[ts[0]].prio) then 1 else 0) + Growths(Enqueue(s, ts[0]), ts[1..])
  }

  /** q_preallocate's ring size, and whether it takes an allocation to get there. */
  function GrownSlots(slots: nat, n: int): nat {
    if n > slots > 0 then Queue.Doubled(slots, n) else slots
  }

  /** The levels that scheduler_preallocate(n) has to grow, from level i up. */
  function LevelsShort(slots: seq<nat>, n: int, i: nat): nat
    decreases |slots| - i
  {
    if i >= |slots| then 0 else (if n > slots[i] then 1 else 0) + LevelsShort(slots, n, i + 1)
  }

  /** scheduler_preallocate(n) from level i up: it stops at the first level that cannot be grown. */
  function Preallocated(slots: seq<nat>, n: int, i: nat, grants: nat): (r: seq<nat>)
    ensures |r| == |slots| && forall j :: 0 <= j < |slots| ==> slots[j] <= r[j]
    decreases |slots| - i
  {
    if i >= |slots| then slots
    else if n <= slots[i] then Preallocated(slots, n, i + 1, grants)
    else if grants == 0 then slots
    else Preallocated(slots[i := GrownSlots(slots[i], n)], n, i + 1, grants - 1)
  }

  /** The threads of ts asleep on addr, in order; and the others, in order. */
  function Asleep(threads: map<Tid, Thread>, ts: seq<Tid>, addr: Addr, want: bool): (r: seq<Tid>)
    requires forall t :: t in ts ==> t in threads
    ensures forall t :: t in r <==> t in ts && (threads[t].sleepaddr == Some(addr)) == want
  {
    if ts == [] then []
    else
      var rest := Asleep(threads, ts[1..], addr, want);
      if (threads[ts[0]].sleepaddr == Some(addr)) == want then [ts[0]] + rest else rest
  }

  /** scheduler's choice: the highest level with a thread on it. */
  function TopLevel(runq: seq<seq<Tid>>): (p: int)
    requires |runq| == NUM_PRIORITIES
    ensures -1 <= p < NUM_PRIORITIES
    ensures p >= 0 ==> runq[p] != []
    ensures forall i :: p < i < NUM_PRIORITIES ==> runq[i] == []
  {
    if runq[3] != [] then 3 else if runq[2] != [] then 2 else if runq[1] != [] then 1
    else if runq[0] != [] then 0 else -1
  }

  /** exorcise: destroy the zombies; thread_destroy insists they have been cleaned up. */
  predicate CanExorcise(s: State, cur: Tid) {
    forall z :: z in s.zombies.items ==> z != cur && z in s.threads && !s.threads[z].vmspace && !s.threads[z].cwd
  }

  function Exorcised(s: State): State {
    s.(threads := map t | t in s.threads && t !in s.zombies.items :: s.threads[t], zombies := Cleared(s.zombies))
  }

  ghost predicate Shape(s: State) {
    && Levels(s)
    && (forall t :: t in s.threads ==> s.threads[t].prio < NUM_PRIORITIES)
    && (s.cur.Some? ==> s.cur.value in s.threads)
    && (forall i, t :: 0 <= i < NUM_PRIORITIES && t in s.runq[i] ==> t in s.threads && s.threads[t].prio == i)
    && (forall t :: t in s.sleepers.items ==> t in s.threads)
    && (forall t :: t in s.zombies.items ==> t in s.threads)
  }

  /** thread_fork after the thread structure has been made. */
  function DoFork(s: State, t: Tid, vm: bool, grants: nat): Outcome
    requires Levels(s)
  {
    if s.cur.None? || s.cur.value !in s.threads || t in s.threads then Blocked
    else if grants < 1 then Next(s)
    else
      var s1 := s.(sleepers := s.sleepers.(max := GrownMax(s.sleepers.max, s.numthreads + 1)));
      if grants < 2 then Next(s1)
      else
        var s2 := s1.(zombies := s.zombies.(max := GrownMax(s.zombies.max, s.numthreads + 1)),
                      slots := Preallocated(s.slots, s.numthreads + 1, 0, grants - 2));
        if grants < ForkNeeds(s) then Next(s2) else Next(Born(s2, t, vm))
  }

  /** The allocations a fork takes: one for each array, one for each ring it preallocates, one if its own ring is full even so. */
  function ForkNeeds(s: State): nat
    requires Levels(s)
  {
    var short := LevelsShort(s.slots, s.numthreads + 1, 0);
    2 + short + if Full(s.(slots := Preallocated(s.slots, s.numthreads + 1, 0, short)), PRIORITY_NORMAL) then 1 else 0
  }

  /** thread_fork's new thread, runnable. */
  function Born(s: State, t: Tid, vm: bool): State
    requires Levels(s) && s.cur.Some? && s.cur.value in s.threads && t !in s.threads
  {
    var me := s.threads[s.cur.value];
    Enqueue(s.(threads := s.threads[t := Thread(PRIORITY_NORMAL, None, me.vmspace && vm, me.cwd, true)],
               numthreads := s.numthreads + 1, forked := true), t)
  }

  /** mi_switch's first half for the three ways a thread gives up the processor. */
  function DoYield(s: State, mem: bool): Outcome
    requires Shape(s)
  {
    if s.cur.None? then Next(s)
    else if Full(s, s.threads[s.cur.value].prio) && !mem then Panic
    else Next(Enqueue(s, s.cur.value).(cur := None))
  }

  function DoSleep(s: State, addr: Addr, mem: bool): Outcome
    requires Shape(s)
  {
    if s.cur.None? then Blocked
    else if NeedsMemory(s.sleepers) && !mem then Panic
    else
      var t := s.cur.value;
      Next(s.(cur := None, threads := s.threads[t := s.threads[t].(sleepaddr := Some(addr))],
              sleepers := Added(s.sleepers, t)))
  }

  function DoExit(s: State, mem: bool): Outcome
    requires Shape(s)
  {
    if s.cur.None? then Blocked
    else if s.numthreads <= 0 || (NeedsMemory(s.zombies) && !mem) then Panic
    else
      var t := s.cur.value;
      Next(s.(cur := None, threads := s.threads[t := s.threads[t].(vmspace := false, cwd := false)],
              zombies := Added(s.zombies, t), numthreads := s.numthreads - 1))
  }

  /** thread_wakeup, by the current thread or from an interrupt. */
  function DoWakeup(s: State, addr: Addr, grants: nat): Outcome
    requires Shape(s)
  {
    var up := Asleep(s.threads, s.sleepers.items, addr, true);
    if grants < Growths(s, up) then Panic
    else
      Next(EnqueueAll(s.(sleepers := s.sleepers.(items := Asleep(s.threads, s.sleepers.items, addr, false))), up))
  }

  /** scheduler's effect: the head of queue p runs next, one priority lower. */
  function Chosen(s: State, p: int): State
    requires Shape(s) && 0 <= p < NUM_PRIORITIES && s.runq[p] != []
  {
    var t := s.runq[p][0];
    assert t in s.runq[p];
    var th := s.threads[t];
    s.(cur := Some(t), runq := s.runq[p := s.runq[p][1..]],
       threads := s.threads[t := th.(prio := if th.prio > 0 then th.prio - 1 else 0, unstarted := false,
                                     sleepaddr := if th.unstarted then th.sleepaddr else None)])
  }

  /** scheduler and the rest of mi_switch: a thread that has run before cleans up the zombies. */
  function DoDispatch(s: State): Outcome
    requires Shape(s)
  {
    var p := TopLevel(s.runq);
    if s.cur.Some? || p < 0 then Blocked
    else
      var t := s.runq[p][0];
      assert t in s.runq[p];
      var th := s.threads[t];
      var s1 := Chosen(s, p);
      if th.unstarted then Next(s1)
      else if !CanExorcise(s1, t) then Panic
      else Next(Exorcised(s1))
  }

  function Apply(s: State, step: Step): Outcome
    requires Shape(s)
  {
    match step
    case Fork(t, vm, grants) => DoFork(s, t, vm, grants)
    case Yield(mem) => DoYield(s, mem)
    case Sleep(addr, mem) => DoSleep(s, addr, mem)
    case Exit(mem) => DoExit(s, mem)
    case Wakeup(addr, grants) => DoWakeup(s, addr, grants)
    case Dispatch => DoDispatch(s)
  }

  // ---------------------------------------------------------------- the invariant

  ghost function CurBag(s: State): multiset<Tid> {
    if s.cur.Some? then multiset{s.cur.value} else multiset{}
  }

  ghost function RunBag(runq: seq<seq<Tid>>): multiset<Tid>
    requires |runq| == NUM_PRIORITIES
  {
    multiset(runq[0]) + multiset(runq[1]) + multiset(runq[2]) + multiset(runq[3])
  }

  /** Every occurrence of every thread, wherever it is kept. */
  ghost function Places(s: State): multiset<Tid>
    requires |s.runq| == NUM_PRIORITIES
  {
    CurBag(s) + RunBag(s.runq) + multiset(s.sleepers.items) + multiset(s.zombies.items)
  }

  /** Every thread in existence is in exactly one place. */
  ghost predicate Placed(s: State)
    requires |s.runq| == NUM_PRIORITIES
  {
    Places(s) == multiset(s.threads.Keys)
  }

  ghost predicate Clean(s: State)
    requires Shape(s)
  {
    forall z :: z in s.zombies.items ==> !s.threads[z].vmspace && !s.threads[z].cwd
  }

  /** The counters, and room in sleepers for everybody once a fork has succeeded. */
  ghost predicate Sized(s: State) {
    && s.numthreads == |s.threads| - |s.zombies.items|
    && |s.sleepers.items| <= s.sleepers.max && |s.zombies.items| <= s.zombies.max
    && (s.forked ==> s.numthreads <= s.sleepers.max)
  }

  /** Every ring holds its queue; once a fork has succeeded it has a slot for every live thread (but one slot is never used). */
  ghost predicate Ringed(s: State)
    requires Levels(s)
  {
    forall p :: 0 <= p < NUM_PRIORITIES ==> |s.runq[p]| < s.slots[p] && RUNQUEUE_SLOTS <= s.slots[p] && (s.forked ==> s.numthreads <= s.slots[p])
  }

  ghost predicate Inv(s: State) {
    Shape(s) && Placed(s) && Clean(s) && Sized(s) && Ringed(s)
  }

  /** thread_bootstrap */
  function Boot(t: Tid): State {
    State(map[t := Thread(PRIORITY_NORMAL, None, false, false, false)], Some(t), [[], [], [], []],
          [RUNQUEUE_SLOTS, RUNQUEUE_SLOTS, RUNQUEUE_SLOTS, RUNQUEUE_SLOTS], Arr([], 0), Arr([], 0), 1, false)
  }

  lemma BootInv(t: Tid)
    ensures Inv(Boot(t))
  {
    assert Boot(t).threads.Keys == {t};
  }

  /** How many times thread t appears among the running, ready, sleeping and dead. */
  ghost function Occurrences(s: State, t: Tid): nat
    requires |s.runq| == NUM_PRIORITIES
  {
    Places(s)[t]
  }

  /** Each thread is in exactly one place. */
  lemma ExactlyOnePlace(s: State, t: Tid)
    requires Inv(s)
    ensures Occurrences(s, t) == if t in s.threads then 1 else 0
  {
    assert Places(s)[t] == multiset(s.threads.Keys)[t];
  }

  /** Neither running, nor on any list the scheduler or a wakeup looks at. */
  ghost predicate Inert(s: State, z: Tid)
    requires |s.runq| == NUM_PRIORITIES
  {
    s.cur != Some(z) && z !in s.sleepers.items && z !in RunBag(s.runq)
  }

  /** A thread that is a zombie, or that does not exist, is inert. */
  lemma DeadIsInert(s: State, z: Tid)
    requires Inv(s) && (z in s.threads ==> z in s.zombies.items)
    ensures Inert(s, z)
  {
    ExactlyOnePlace(s, z);
    assert z in s.zombies.items ==> multiset(s.zombies.items)[z] >= 1;
    assert z in s.sleepers.items ==> multiset(s.sleepers.items)[z] >= 1;
    assert s.cur == Some(z) ==> CurBag(s)[z] >= 1;
  }

  /** numthreads counts the threads that are not zombies. */
  lemma NumThreadsCounts(s: State)
    requires Inv(s)
    ensures s.numthreads == |CurBag(s)| + |s.runq[0]| + |s.runq[1]| + |s.runq[2]| + |s.runq[3]| + |s.sleepers.items|
  {
    assert |multiset(s.threads.Keys)| == |s.threads|;
    assert |Places(s)| == |CurBag(s)| + |RunBag(s.runq)| + |s.sleepers.items| + |s.zombies.items|;
  }

  lemma BagCons(x: Tid, ts: seq<Tid>)
    ensures multiset([x] + ts) == multiset{x} + multiset(ts)
  {
  }

  lemma BagHead(ts: seq<Tid>)
    requires ts != []
    ensures multiset(ts) == multiset{ts[0]} + multiset(ts[1..])
  {
    assert ts == [ts[0]] + ts[1..];
  }

  lemma EnqueueBag(s: State, t: Tid)
    requires Levels(s) && t in s.threads && s.threads[t].prio < NUM_PRIORITIES
    ensures RunBag(Enqueue(s, t).runq) == RunBag(s.runq) + multiset{t}
  {
    var p := s.threads[t].prio;
    assert multiset(s.runq[p] + [t]) == multiset(s.runq[p]) + multiset{t};
  }

  lemma {:induction false} EnqueueAllBag(s: State, ts: seq<Tid>)
    requires Levels(s) && forall t :: t in ts ==> t in s.threads && s.threads[t].prio < NUM_PRIORITIES
    ensures RunBag(EnqueueAll(s, ts).runq) == RunBag(s.runq) + multiset(ts)
    decreases |ts|
  {
    if ts != [] {
      var s1 := Enqueue(s, ts[0]);
      EnqueueBag(s, ts[0]);
      EnqueueAllBag(s1, ts[1..]);
      BagHead(ts);
      assert RunBag(s.runq) + multiset{ts[0]} + multiset(ts[1..]) == RunBag(s.runq) + (multiset{ts[0]} + multiset(ts[1..]));
    }
  }

  lemma {:induction false} EnqueueAllShape(s: State, ts: seq<Tid>)
    requires Shape(s) && forall t :: t in ts ==> t in s.threads
    ensures Shape(EnqueueAll(s, ts))
    decreases |ts|
  {
    if ts != [] {
      EnqueueAllShape(Enqueue(s, ts[0]), ts[1..]);
    }
  }

  lemma {:induction false} AsleepBag(threads: map<Tid, Thread>, ts: seq<Tid>, addr: Addr)
    requires forall t :: t in ts ==> t in threads
    ensures multiset(Asleep(threads, ts, addr, true)) + multiset(Asleep(threads, ts, addr, false)) == multiset(ts)
    ensures |Asleep(threads, ts, addr, false)| <= |ts|
  {
    if ts != [] {
      AsleepBag(threads, ts[1..], addr);
      BagHead(ts);
      BagCons(ts[0], Asleep(threads, ts[1..], addr, true));
      BagCons(ts[0], Asleep(threads, ts[1..], addr, false));
    }
  }

  // ---------------------------------------------------------------- every step keeps the invariant

  lemma Rearrange(c: multiset<Tid>, r: multiset<Tid>, sl: multiset<Tid>, z: multiset<Tid>, x: multiset<Tid>)
    ensures (c + x) + r + sl + z == c + (r + x) + sl + z
    ensures (c + x) + r + sl + z == c + r + (sl + x) + z
    ensures (c + x) + r + sl + z == c + r + sl + (z + x)
    ensures c + (r + x) + sl + z == (c + r + sl + z) + x
    ensures c + (r + x) + sl + z == c + r + (x + sl) + z
  {
  }

  lemma ForkInv(s: State, t: Tid, vm: bool, grants: nat)
    requires Inv(s) && DoFork(s, t, vm, grants).Next?
    ensures Inv(DoFork(s, t, vm, grants).state)
  {
    ForkState(s, t, vm, grants);
    if grants > 0 {
      ForkRoomInv(s, grants);
      if grants >= ForkNeeds(s) {
        EnoughRoom(s, grants);
        BornInv(ForkRoom(s, grants), t, vm);
      }
    }
  }

  lemma EnoughRoom(s: State, grants: nat)
    requires Levels(s) && Ringed(s) && grants >= ForkNeeds(s)
    ensures var s', n := ForkRoom(s, grants), s.numthreads + 1;
            n <= s'.sleepers.max && |s'.slots| == NUM_PRIORITIES && forall p :: 0 <= p < NUM_PRIORITIES ==> n <= s'.slots[p]
  {
    PreallocatedAll(s.slots, s.numthreads + 1, 0, grants - 2);
  }

  /** The room a fork has made by the time it makes the thread, or runs out of memory. */
  function ForkRoom(s: State, grants: nat): State
    requires grants > 0
  {
    var n := s.numthreads + 1;
    if grants == 1 then Roomier(s, GrownMax(s.sleepers.max, n), s.zombies.max, s.slots)
    else Roomier(s, GrownMax(s.sleepers.max, n), GrownMax(s.zombies.max, n), Preallocated(s.slots, n, 0, grants - 2))
  }

  lemma ForkState(s: State, t: Tid, vm: bool, grants: nat)
    requires Levels(s) && DoFork(s, t, vm, grants).Next?
    ensures DoFork(s, t, vm, grants).state ==
            if grants == 0 then s else if grants < ForkNeeds(s) then ForkRoom(s, grants) else Born(ForkRoom(s, grants), t, vm)
  {
  }

  lemma ForkRoomInv(s: State, grants: nat)
    requires Inv(s) && grants > 0
    ensures Inv(ForkRoom(s, grants))
  {
    var s' := ForkRoom(s, grants);
    RoomOnly(s, s'.sleepers.max, s'.zombies.max, s'.slots);
  }

  /** scheduler_preallocate(n), given the memory it needs, leaves every ring with n slots or more. */
  lemma {:induction false} PreallocatedAll(slots: seq<nat>, n: int, i: nat, grants: nat)
    requires grants >= LevelsShort(slots, n, i) && i <= |slots| && forall j :: 0 <= j < |slots| ==> slots[j] > 0
    requires forall j :: 0 <= j < i ==> n <= slots[j]
    ensures forall j :: 0 <= j < |slots| ==> n <= Preallocated(slots, n, i, grants)[j]
    decreases |slots| - i
  {
    if i < |slots| {
      if n <= slots[i] {
        PreallocatedAll(slots, n, i + 1, grants);
      } else {
        var slots' := slots[i := GrownSlots(slots[i], n)];
        ShortFrame(slots, slots', n, i + 1);
        PreallocatedAll(slots', n, i + 1, grants - 1);
      }
    }
  }

  /** One level of scheduler_preallocate. */
  lemma PreallocatedStep(slots: seq<nat>, n: int, i: nat, grants: nat)
    requires i < |slots|
    ensures var short := n > slots[i];
            if short && grants == 0 then Preallocated(slots, n, i, grants) == slots && LevelsShort(slots, n, i) > grants
            else
              var slots' := if short then slots[i := GrownSlots(slots[i], n)] else slots;
              var used := if short then 1 else 0;
              && Preallocated(slots, n, i, grants) == Preallocated(slots', n, i + 1, grants - used)
              && LevelsShort(slots, n, i) == used + LevelsShort(slots', n, i + 1)
  {
    ShortFrame(slots, if n > slots[i] then slots[i := GrownSlots(slots[i], n)] else slots, n, i + 1);
  }

  lemma {:induction false} ShortFrame(a: seq<nat>, b: seq<nat>, n: int, i: nat)
    requires |a| == |b| && forall j :: i <= j < |a| ==> a[j] == b[j]
    ensures LevelsShort(a, n, i) == LevelsShort(b, n, i)
    decreases |a| - i
  {
    if i < |a| {
      ShortFrame(a, b, n, i + 1);
    }
  }

  /** A fork that runs out of memory has at most made room in the arrays and the rings. */
  function Roomier(s: State, sleepers: nat, zombies: nat, slots: seq<nat>): State {
    s.(sleepers := s.sleepers.(max := sleepers), zombies := s.zombies.(max := zombies), slots := slots)
  }

  lemma RoomOnly(s: State, sleepers: nat, zombies: nat, slots: seq<nat>)
    requires Inv(s) && s.sleepers.max <= sleepers && s.zombies.max <= zombies
    requires |slots| == NUM_PRIORITIES && forall p :: 0 <= p < NUM_PRIORITIES ==> s.slots[p] <= slots[p]
    ensures Inv(Roomier(s, sleepers, zombies, slots))
  {
    var s' := Roomier(s, sleepers, zombies, slots);
    SameShape(s, s');
    SamePlaces(s, s');
  }

  lemma SamePlaces(s: State, s': State)
    requires |s.runq| == NUM_PRIORITIES && s'.runq == s.runq && s'.cur == s.cur
    requires s'.sleepers.items == s.sleepers.items && s'.zombies.items == s.zombies.items
    ensures Places(s') == Places(s)
  {
  }

  lemma SameShape(s: State, s': State)
    requires Shape(s) && Clean(s) && s'.runq == s.runq && |s'.slots| == NUM_PRIORITIES && s'.cur == s.cur && s'.threads == s.threads
    requires s'.sleepers.items == s.sleepers.items && s'.zombies.items == s.zombies.items
    ensures Shape(s') && Clean(s')
  {
  }

  lemma KeysPlus(keys: set<Tid>, t: Tid)
    requires t !in keys
    ensures multiset(keys + {t}) == multiset(keys) + multiset{t} && |keys + {t}| == |keys| + 1
  {
  }

  /** The new thread keeps the invariant once there is room for it everywhere. */
  lemma BornInv(s: State, t: Tid, vm: bool)
    requires Inv(s) && s.cur.Some? && t !in s.threads && s.numthreads + 1 <= s.sleepers.max
    requires forall p :: 0 <= p < NUM_PRIORITIES ==> s.numthreads + 1 <= s.slots[p]
    ensures Inv(Born(s, t, vm))
  {
    BornShape(s, t, vm);
    BornPlaces(s, t, vm);
  }

  lemma BornShape(s: State, t: Tid, vm: bool)
    requires Shape(s) && Clean(s) && s.cur.Some? && t !in s.threads
    ensures Shape(Born(s, t, vm)) && Clean(Born(s, t, vm))
  {
  }

  lemma BornPlaces(s: State, t: Tid, vm: bool)
    requires Shape(s) && s.cur.Some? && t !in s.threads && Places(s) == multiset(s.threads.Keys)
    ensures var s' := Born(s, t, vm); Places(s') == multiset(s'.threads.Keys) && |s'.threads| == |s.threads| + 1
  {
    BornBag(s, t, vm);
    KeysPlus(s.threads.Keys, t);
    Rearrange(CurBag(s), RunBag(s.runq), multiset(s.sleepers.items), multiset(s.zombies.items), multiset{t});
  }

  lemma BornBag(s: State, t: Tid, vm: bool)
    requires Shape(s) && s.cur.Some? && t !in s.threads
    ensures var s' := Born(s, t, vm); RunBag(s'.runq) == RunBag(s.runq) + multiset{t} && s'.threads.Keys == s.threads.Keys + {t}
  {
    var me := s.threads[s.cur.value];
    EnqueueBag(s.(threads := s.threads[t := Thread(PRIORITY_NORMAL, None, me.vmspace && vm, me.cwd, true)]), t);
  }

  lemma YieldInv(s: State, mem: bool)
    requires Inv(s) && DoYield(s, mem).Next?
    ensures Inv(DoYield(s, mem).state)
  {
    if s.cur.Some? {
      YieldShape(s, s.cur.value);
      YieldPlaces(s, s.cur.value);
    }
  }

  lemma YieldShape(s: State, t: Tid)
    requires Shape(s) && Clean(s) && Ringed(s) && s.cur == Some(t)
    ensures var s' := Enqueue(s, t).(cur := None); Shape(s') && Clean(s') && Ringed(s')
  {
  }

  lemma YieldPlaces(s: State, t: Tid)
    requires Levels(s) && s.cur == Some(t) && t in s.threads && s.threads[t].prio < NUM_PRIORITIES
    ensures Places(Enqueue(s, t).(cur := None)) == Places(s)
  {
    EnqueueBag(s, t);
    Rearrange(multiset{}, RunBag(s.runq), multiset(s.sleepers.items), multiset(s.zombies.items), multiset{t});
    assert multiset{} + multiset{t} == CurBag(s);
  }

  lemma SleepInv(s: State, addr: Addr, mem: bool)
    requires Inv(s) && DoSleep(s, addr, mem).Next?
    ensures Inv(DoSleep(s, addr, mem).state)
  {
    SleepShape(s, addr, mem);
    PutAway(s, s.cur.value);
    assert DoSleep(s, addr, mem).state.threads.Keys == s.threads.Keys;
  }

  lemma SleepShape(s: State, addr: Addr, mem: bool)
    requires Shape(s) && Clean(s) && DoSleep(s, addr, mem).Next?
    ensures Shape(DoSleep(s, addr, mem).state) && Clean(DoSleep(s, addr, mem).state)
  {
  }

  lemma ExitInv(s: State, mem: bool)
    requires Inv(s) && DoExit(s, mem).Next?
    ensures Inv(DoExit(s, mem).state)
  {
    ExitShape(s, mem);
    PutAway(s, s.cur.value);
    assert DoExit(s, mem).state.threads.Keys == s.threads.Keys;
  }

  lemma ExitShape(s: State, mem: bool)
    requires Shape(s) && Clean(s) && DoExit(s, mem).Next?
    ensures Shape(DoExit(s, mem).state) && Clean(DoExit(s, mem).state)
  {
  }

  /** Moving the current thread to the end of sleepers or zombies keeps every occurrence. */
  lemma PutAway(s: State, t: Tid)
    requires |s.runq| == NUM_PRIORITIES && s.cur == Some(t)
    ensures Places(s.(cur := None, sleepers := Added(s.sleepers, t))) == Places(s)
    ensures Places(s.(cur := None, zombies := Added(s.zombies, t))) == Places(s)
  {
    var sl, z := multiset(s.sleepers.items), multiset(s.zombies.items);
    assert multiset(s.sleepers.items + [t]) == sl + multiset{t};
    assert multiset(s.zombies.items + [t]) == z + multiset{t};
    Rearrange(multiset{}, RunBag(s.runq), sl, z, multiset{t});
    assert multiset{} + multiset{t} == CurBag(s);
  }

  lemma WakeupInv(s: State, addr: Addr, grants: nat)
    requires Inv(s) && DoWakeup(s, addr, grants).Next?
    ensures Inv(DoWakeup(s, addr, grants).state)
  {
    WakeupShape(s, addr, grants);
    WakeupPlaces(s, addr, grants);
    AsleepBag(s.threads, s.sleepers.items, addr);
    var up, rest := Asleep(s.threads, s.sleepers.items, addr, true), Asleep(s.threads, s.sleepers.items, addr, false);
    EnqueueAllRinged(s.(sleepers := s.sleepers.(items := rest)), up);
  }

  lemma {:induction false} EnqueueAllRinged(s: State, ts: seq<Tid>)
    requires Levels(s) && Ringed(s) && forall t :: t in ts ==> t in s.threads && s.threads[t].prio < NUM_PRIORITIES
    ensures Ringed(EnqueueAll(s, ts))
    decreases |ts|
  {
    if ts != [] {
      EnqueueAllRinged(Enqueue(s, ts[0]), ts[1..]);
    }
  }

  lemma WakeupShape(s: State, addr: Addr, grants: nat)
    requires Shape(s) && DoWakeup(s, addr, grants).Next?
    ensures Shape(DoWakeup(s, addr, grants).state)
  {
    var up, rest := Asleep(s.threads, s.sleepers.items, addr, true), Asleep(s.threads, s.sleepers.items, addr, false);
    EnqueueAllShape(s.(sleepers := s.sleepers.(items := rest)), up);
  }

  lemma WakeupPlaces(s: State, addr: Addr, grants: nat)
    requires Shape(s) && DoWakeup(s, addr, grants).Next?
    ensures Places(DoWakeup(s, addr, grants).state) == Places(s)
  {
    var up, rest := Asleep(s.threads, s.sleepers.items, addr, true), Asleep(s.threads, s.sleepers.items, addr, false);
    AsleepBag(s.threads, s.sleepers.items, addr);
    EnqueueAllBag(s.(sleepers := s.sleepers.(items := rest)), up);
    Rearrange(CurBag(s), RunBag(s.runq), multiset(rest), multiset(s.zombies.items), multiset(up));
  }

  lemma HeadBag(runq: seq<seq<Tid>>, p: int)
    requires |runq| == NUM_PRIORITIES && 0 <= p < NUM_PRIORITIES && runq[p] != []
    ensures RunBag(runq) == RunBag(runq[p := runq[p][1..]]) + multiset{runq[p][0]}
  {
    BagHead(runq[p]);
  }

  lemma ChosenPlaces(s: State, p: int)
    requires Shape(s) && s.cur.None? && 0 <= p < NUM_PRIORITIES && s.runq[p] != []
    ensures Places(Chosen(s, p)) == Places(s)
    ensures Chosen(s, p).threads.Keys == s.threads.Keys
  {
    var t := s.runq[p][0];
    assert t in s.runq[p];
    var runq' := s.runq[p := s.runq[p][1..]];
    HeadBag(s.runq, p);
    Rearrange(multiset{}, RunBag(runq'), multiset(s.sleepers.items), multiset(s.zombies.items), multiset{t});
    assert multiset{} + multiset{t} == CurBag(Chosen(s, p));
  }

  lemma ChosenInv(s: State, p: int)
    requires Inv(s) && s.cur.None? && 0 <= p < NUM_PRIORITIES && s.runq[p] != []
    ensures Inv(Chosen(s, p)) && s.runq[p][0] !in s.zombies.items
  {
    var t := s.runq[p][0];
    assert t in s.runq[p];
    HeadNowhereElse(s, p);
    ChosenPlaces(s, p);
    ChosenShape(s, p);
  }

  /** The head of a run queue is on no other queue, not further down its own, and not a zombie. */
  lemma HeadNowhereElse(s: State, p: int)
    requires Inv(s) && 0 <= p < NUM_PRIORITIES && s.runq[p] != []
    ensures s.runq[p][0] !in s.runq[p][1..] && s.runq[p][0] !in s.zombies.items
  {
    var t := s.runq[p][0];
    assert t in s.runq[p];
    BagHead(s.runq[p]);
    ExactlyOnePlace(s, t);
    RunBagAtLeast(s.runq, p, t);
    assert multiset(s.runq[p])[t] == 1 + multiset(s.runq[p][1..])[t];
  }

  lemma RunBagAtLeast(runq: seq<seq<Tid>>, p: int, t: Tid)
    requires |runq| == NUM_PRIORITIES && 0 <= p < NUM_PRIORITIES
    ensures RunBag(runq)[t] >= multiset(runq[p])[t]
  {
  }

  lemma ChosenShape(s: State, p: int)
    requires Shape(s) && Clean(s) && 0 <= p < NUM_PRIORITIES && s.runq[p] != []
    requires s.runq[p][0] !in s.runq[p][1..] && s.runq[p][0] !in s.zombies.items
    ensures Shape(Chosen(s, p)) && Clean(Chosen(s, p))
  {
    var t, s' := s.runq[p][0], Chosen(s, p);
    assert t in s.runq[p];
    forall i, u | 0 <= i < NUM_PRIORITIES && u in s'.runq[i]
      ensures u in s'.threads && s'.threads[u].prio == i
    {
      assert u in s.runq[i];
    }
  }

  /** Removing the zombies leaves exactly the threads that have a place elsewhere. */
  lemma ExorcisedInv(s: State)
    requires Inv(s)
    ensures Inv(Exorcised(s))
  {
    var s' := Exorcised(s);
    var b, z := CurBag(s) + RunBag(s.runq) + multiset(s.sleepers.items), multiset(s.zombies.items);
    assert Places(s) == b + z;
    KeysWithoutBag(s.threads.Keys, s'.threads.Keys, b, s.zombies.items);
    assert Places(s') == b;
    ExorcisedShape(s, b);
  }

  lemma KeysWithoutBag(keys: set<Tid>, keys': set<Tid>, b: multiset<Tid>, z: seq<Tid>)
    requires b + multiset(z) == multiset(keys) && forall t :: t in keys' <==> t in keys && t !in z
    ensures b == multiset(keys') && |keys'| == |keys| - |z|
    ensures forall t :: t in b ==> t !in z
  {
    forall t: Tid
      ensures b[t] == multiset(keys')[t]
    {
      assert (b + multiset(z))[t] == multiset(keys)[t];
      assert t in z <==> t in multiset(z);
    }
    assert |b + multiset(z)| == |b| + |z|;
  }

  lemma ExorcisedShape(s: State, b: multiset<Tid>)
    requires Shape(s) && b == CurBag(s) + RunBag(s.runq) + multiset(s.sleepers.items)
    requires forall t :: t in b ==> t !in s.zombies.items
    ensures Shape(Exorcised(s))
  {
    forall t | t in s.sleepers.items
      ensures t !in s.zombies.items
    {
      assert t in multiset(s.sleepers.items) && t in b;
    }
    forall i, t | 0 <= i < NUM_PRIORITIES && t in s.runq[i]
      ensures t !in s.zombies.items
    {
      InRunBag(s.runq, i, t);
      assert t in b;
    }
    assert s.cur.Some? ==> s.cur.value in CurBag(s) && s.cur.value in b;
  }

  lemma InRunBag(runq: seq<seq<Tid>>, i: int, t: Tid)
    requires |runq| == NUM_PRIORITIES && 0 <= i < NUM_PRIORITIES && t in runq[i]
    ensures t in RunBag(runq)
  {
    assert multiset(runq[i])[t] >= 1;
  }

  lemma ZombiesDestroyable(s: State, p: int)
    requires Inv(s) && s.cur.None? && 0 <= p < NUM_PRIORITIES && s.runq[p] != []
    ensures CanExorcise(Chosen(s, p), s.runq[p][0])
  {
    HeadNowhereElse(s, p);
    var t := s.runq[p][0];
    assert t in s.runq[p];
    forall z | z in s.zombies.items
      ensures z != t && z in s.threads && !s.threads[z].vmspace && !s.threads[z].cwd
    {
    }
  }

  lemma DispatchNext(s: State, p: int)
    requires Shape(s) && s.cur.None? && p == TopLevel(s.runq) >= 0 && CanExorcise(Chosen(s, p), s.runq[p][0])
    ensures DoDispatch(s) == Next(Chosen(s, p)) || DoDispatch(s) == Next(Exorcised(Chosen(s, p)))
  {
  }

  /** Picking the next thread keeps the invariant, and thread_destroy's assertions always hold. */
  lemma DispatchInv(s: State)
    requires Inv(s)
    ensures !DoDispatch(s).Panic?
    ensures DoDispatch(s).Next? ==> Inv(DoDispatch(s).state)
  {
    var p := TopLevel(s.runq);
    if s.cur.None? && p >= 0 {
      ZombiesDestroyable(s, p);
      DispatchNext(s, p);
      ChosenInv(s, p);
      ExorcisedInv(Chosen(s, p));
    }
  }

  lemma StepInv(s: State, step: Step)
    requires Inv(s) && Apply(s, step).Next?
    ensures Inv(Apply(s, step).state)
  {
    match step
    case Fork(t, vm, grants) => ForkInv(s, t, vm, grants);
    case Yield(mem) => YieldInv(s, mem);
    case Sleep(addr, mem) => SleepInv(s, addr, mem);
    case Exit(mem) => ExitInv(s, mem);
    case Wakeup(addr, grants) => WakeupInv(s, addr, grants);
    case Dispatch => DispatchInv(s);
  }
}
