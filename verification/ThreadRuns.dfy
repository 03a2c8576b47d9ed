/** What holds over whole runs of the thread system: placement, preallocation, bounded waiting. */
module ThreadRuns {
  import opened Prelude
  import opened Arrays
  import opened Threads

  /** Run a list of steps until it ends, panics or blocks. */
  ghost function Exec(s: State, steps: seq<Step>): Outcome
    requires Inv(s)
    decreases |steps|
  {
    if steps == [] then Next(s)
    else
      match Apply(s, steps[0])
      case Next(s1) => StepInv(s, steps[0]); Exec(s1, steps[1..])
      case o => o
  }

  lemma {:induction false} RunInv(s: State, steps: seq<Step>)
    requires Inv(s) && Exec(s, steps).Next?
    ensures Inv(Exec(s, steps).state)
    decreases |steps|
  {
    if steps != [] {
      StepInv(s, steps[0]);
      RunInv(Apply(s, steps[0]).state, steps[1..]);
    }
  }

  lemma ExecStep(s: State, step: Step, rest: seq<Step>)
    requires Inv(s) && Apply(s, step).Next?
    ensures Inv(Apply(s, step).state) && Exec(s, [step] + rest) == Exec(Apply(s, step).state, rest)
  {
    StepInv(s, step);
    assert ([step] + rest)[1..] == rest;
  }

  /** A fork that has its memory adds its thread, never run, at the tail of the normal level, and nothing else but room. */
  lemma ForkBears(s: State, t: Tid, vm: bool, grants: nat)
    requires Inv(s) && DoFork(s, t, vm, grants).Next? && grants >= ForkNeeds(s)
    ensures var s' := DoFork(s, t, vm, grants).state;
            && s'.runq == s.runq[PRIORITY_NORMAL := s.runq[PRIORITY_NORMAL] + [t]]
            && t !in s.threads && t in s'.threads && s'.threads == s.threads[t := s'.threads[t]]
            && s'.threads[t].unstarted && s'.threads[t].prio == PRIORITY_NORMAL && s'.threads[t].sleepaddr == None
            && s'.cur == s.cur && s'.numthreads == s.numthreads + 1
            && s'.sleepers.items == s.sleepers.items && s'.zombies.items == s.zombies.items
  {
    ForkState(s, t, vm, grants);
  }

  /** A dispatch runs the longest waiting thread of the highest level, one level lower; if it has run before, the zombies go. */
  lemma DispatchTakes(s: State, p: nat)
    requires Inv(s) && s.cur.None? && p < NUM_PRIORITIES && s.runq[p] != []
    requires forall q :: p < q < NUM_PRIORITIES ==> s.runq[q] == []
    ensures s.runq[p][0] in s.threads && DoDispatch(s).Next?
    ensures var s', t := DoDispatch(s).state, s.runq[p][0];
            && s'.cur == Some(t) && s'.runq == s.runq[p := s.runq[p][1..]] && t in s'.threads
            && s'.threads[t].prio == (if p == 0 then 0 else p - 1) && !s'.threads[t].unstarted
            && s'.zombies.items == (if s.threads[t].unstarted then s.zombies.items else []) && s'.sleepers == s.sleepers
  {
    assert s.runq[p][0] in s.runq[p];
    DispatchInv(s);
    assert TopLevel(s.runq) == p;
  }

  /** The first step of a run that goes through. */
  lemma ExecHead(s: State, steps: seq<Step>) returns (s1: State)
    requires Inv(s) && steps != [] && Exec(s, steps).Next?
    ensures Apply(s, steps[0]) == Next(s1) && Inv(s1) && Exec(s, steps) == Exec(s1, steps[1..])
  {
    s1 := Apply(s, steps[0]).state;
    StepInv(s, steps[0]);
  }

  /**
   The only assertions that can fail are those on an allocation that was needed and refused;
   making a thread runnable needs one exactly when its level holds one thread less than it has slots.
   */
  lemma PanicsOnlyForMemory(s: State, step: Step)
    requires Inv(s)
    ensures Apply(s, step).Panic? <==>
            match step
            case Fork(_, _, _) => false
            case Yield(mem) =>
              s.cur.Some? && !mem && var p := s.threads[s.cur.value].prio; |s.runq[p]| == s.slots[p] - 1
            case Sleep(_, mem) => s.cur.Some? && NeedsMemory(s.sleepers) && !mem
            case Exit(mem) => s.cur.Some? && NeedsMemory(s.zombies) && !mem
            case Wakeup(addr, grants) =>
              var up := Asleep(s.threads, s.sleepers.items, addr, true); grants < DoublingsTo(s.slots, EnqueueAll(s, up).runq)
            case Dispatch => false
  {
    NumThreadsCounts(s);
    DispatchInv(s);
    if step.Wakeup? {
      GrowthsByLevel(s, Asleep(s.threads, s.sleepers.items, step.addr, true));
    }
  }

  /** How often a ring of this size has to be doubled to have this many slots. */
  function Doublings(size: nat, target: nat): nat
    requires 0 < size
    decreases target - size
  {
    if size >= target then 0 else 1 + Doublings(2 * size, target)
  }

  /** The doublings of the four rings that hold queues of these lengths, each with one slot unused. */
  function DoublingsTo(slots: seq<nat>, runq: seq<seq<Tid>>): nat
    requires |slots| == |runq| == NUM_PRIORITIES
  {
    DoublingsAt(slots, runq, 0) + DoublingsAt(slots, runq, 1) + DoublingsAt(slots, runq, 2) + DoublingsAt(slots, runq, 3)
  }

  function DoublingsAt(slots: seq<nat>, runq: seq<seq<Tid>>, p: nat): nat
    requires |slots| == |runq| == NUM_PRIORITIES && p < NUM_PRIORITIES
  {
    if slots[p] == 0 then 0 else Doublings(slots[p], |runq[p]| + 1)
  }

  /** The allocations that making threads runnable takes depend only on how long the queues get. */
  lemma {:induction false} GrowthsByLevel(s: State, ts: seq<Tid>)
    requires Levels(s) && Ringed(s) && forall t :: t in ts ==> t in s.threads && s.threads[t].prio < NUM_PRIORITIES
    ensures Growths(s, ts) == DoublingsTo(s.slots, EnqueueAll(s, ts).runq)
    ensures forall p :: 0 <= p < NUM_PRIORITIES ==> |s.runq[p]| <= |EnqueueAll(s, ts).runq[p]|
    decreases |ts|
  {
    if ts != [] {
      var s1, q, runq' := Enqueue(s, ts[0]), s.threads[ts[0]].prio, EnqueueAll(s, ts).runq;
      GrowthsByLevel(s1, ts[1..]);
      assert |s1.runq[q]| <= |runq'[q]|;
      forall p | 0 <= p < NUM_PRIORITIES
        ensures DoublingsAt(s.slots, runq', p) == DoublingsAt(s1.slots, runq', p) + if p == q && Full(s, q) then 1 else 0
      {
      }
    }
  }

  /** Queues that fit their rings take no allocation, and no others do. */
  lemma NoDoublings(slots: seq<nat>, runq: seq<seq<Tid>>)
    requires |slots| == |runq| == NUM_PRIORITIES && forall p :: 0 <= p < NUM_PRIORITIES ==> slots[p] > 0
    ensures DoublingsTo(slots, runq) == 0 <==> forall p :: 0 <= p < NUM_PRIORITIES ==> |runq[p]| < slots[p]
  {
    assert forall p :: 0 <= p < NUM_PRIORITIES ==> (DoublingsAt(slots, runq, p) == 0 <==> |runq[p]| < slots[p]);
  }

  // ---------------------------------------------------------------- what preallocation is worth

  /**
   thread_fork preallocates so that making a thread runnable should not fail.  After a fork it
   still needs memory, exactly when all the other live threads are ready at the thread's own
   level and there are as many live threads as the level has slots.
   */
  lemma YieldNeedsMemory(s: State, t: Tid)
    requires Inv(s) && s.forked && s.cur == Some(t)
    ensures var p := s.threads[t].prio; Full(s, p) <==> |s.runq[p]| == s.numthreads - 1 && s.numthreads == s.slots[p]
  {
    NumThreadsCounts(s);
  }

  /** The run queues after a wakeup, as far as its allocations go through. */
  ghost function Woken(s: State, addr: Addr): (runq: seq<seq<Tid>>)
    requires Shape(s)
    ensures |runq| == NUM_PRIORITIES
  {
    EnqueueAll(s, Asleep(s.threads, s.sleepers.items, addr, true)).runq
  }

  ghost function Lengths(runq: seq<seq<Tid>>): nat
    requires |runq| == NUM_PRIORITIES
  {
    |runq[0]| + |runq[1]| + |runq[2]| + |runq[3]|
  }

  lemma WokenLengths(s: State, addr: Addr)
    requires Inv(s)
    ensures Lengths(Woken(s, addr)) + |CurBag(s)| <= s.numthreads
    ensures Growths(s, Asleep(s.threads, s.sleepers.items, addr, true)) == DoublingsTo(s.slots, Woken(s, addr))
  {
    var up, rest := Asleep(s.threads, s.sleepers.items, addr, true), Asleep(s.threads, s.sleepers.items, addr, false);
    GrowthsByLevel(s, up);
    EnqueueAllIgnoresSleepers(s, up, rest);
    WakeupInv(s, addr, Growths(s, up));
    NumThreadsCounts(DoWakeup(s, addr, Growths(s, up)).state);
  }

  /** Queues of at most n threads in all, in rings of at least n slots. */
  lemma TightRing(slots: seq<nat>, runq: seq<seq<Tid>>, n: int)
    requires |slots| == |runq| == NUM_PRIORITIES && Lengths(runq) <= n
    requires forall p :: 0 <= p < NUM_PRIORITIES ==> slots[p] > 0 && n <= slots[p]
    ensures DoublingsTo(slots, runq) > 0 <==> exists p :: 0 <= p < NUM_PRIORITIES && |runq[p]| == n == slots[p]
  {
    NoDoublings(slots, runq);
  }

  /** The same for a wakeup: it takes memory exactly when it makes every live thread ready at one level with no more slots than that. */
  lemma WakeupNeedsMemory(s: State, addr: Addr)
    requires Inv(s) && s.forked
    ensures Growths(s, Asleep(s.threads, s.sleepers.items, addr, true)) > 0 <==>
            exists p :: 0 <= p < NUM_PRIORITIES && |Woken(s, addr)[p]| == s.numthreads == s.slots[p]
  {
    WokenLengths(s, addr);
    TightRing(s.slots, Woken(s, addr), s.numthreads);
  }

  /** A thread that wakes others up never needs memory for it: it is not ready itself. */
  lemma WakeupByThread(s: State, addr: Addr)
    requires Inv(s) && s.forked && s.cur.Some?
    ensures DoWakeup(s, addr, 0).Next?
  {
    WokenLengths(s, addr);
    WakeupNeedsMemory(s, addr);
  }

  lemma {:induction false} EnqueueAllIgnoresSleepers(s: State, ts: seq<Tid>, rest: seq<Tid>)
    requires Levels(s) && forall u :: u in ts ==> u in s.threads && s.threads[u].prio < NUM_PRIORITIES
    ensures EnqueueAll(s.(sleepers := s.sleepers.(items := rest)), ts) == EnqueueAll(s, ts).(sleepers := s.sleepers.(items := rest))
    decreases |ts|
  {
    if ts != [] {
      EnqueueAllIgnoresSleepers(Enqueue(s, ts[0]), ts[1..], rest);
    }
  }

  /**
   The room made for zombies does not last: once it is more than 16, the next dispatch of a thread that has
   run before gives it back, and if that thread exits it needs memory again.
   */
  lemma ZombieRoomGivenBack(s: State)
    requires Inv(s) && s.cur.None? && TopLevel(s.runq) >= 0 && s.zombies.max > 16
    requires var t := s.runq[TopLevel(s.runq)][0]; t in s.threads && !s.threads[t].unstarted
    ensures DoDispatch(s).Next?
    ensures var s' := DoDispatch(s).state; Shape(s') && s'.zombies == Arr([], 0) && DoExit(s', false) == Panic
  {
    DispatchInv(s);
  }

  /** Fewer than 32 live threads never need memory to yield or to wake others up. */
  lemma FewThreads(s: State, addr: Addr)
    requires Inv(s) && s.numthreads < RUNQUEUE_SLOTS
    ensures DoYield(s, false).Next? && DoWakeup(s, addr, 0).Next?
  {
    NumThreadsCounts(s);
    WokenLengths(s, addr);
    NoDoublings(s.slots, Woken(s, addr));
  }

  /** After its preallocations, thread_fork's own make_runnable never needs memory. */
  lemma ForkFits(s: State)
    requires Inv(s) && s.cur.Some?
    ensures ForkNeeds(s) == 2 + LevelsShort(s.slots, s.numthreads + 1, 0)
  {
    NumThreadsCounts(s);
    PreallocatedAll(s.slots, s.numthreads + 1, 0, LevelsShort(s.slots, s.numthreads + 1, 0));
  }

  lemma {:induction false} NoneShort(slots: seq<nat>, n: int, i: nat)
    requires forall j :: 0 <= j < |slots| ==> n <= slots[j]
    ensures LevelsShort(slots, n, i) == 0 && forall grants :: Preallocated(slots, n, i, grants) == slots
    decreases |slots| - i
  {
    if i < |slots| {
      NoneShort(slots, n, i + 1);
    }
  }

  // ---------------------------------------------------------------- zombies

  /** A zombie, or no thread at all. */
  ghost predicate Dead(s: State, z: Tid) {
    z in s.threads ==> z in s.zombies.items
  }

  lemma StepDead(s: State, step: Step, z: Tid)
    requires Inv(s) && Dead(s, z) && Apply(s, step).Next? && !(step.Fork? && step.t == z)
    ensures Dead(Apply(s, step).state, z)
  {
    DeadIsInert(s, z);
    match step
    case Fork(t, vm, grants) => ForkState(s, t, vm, grants);
    case Dispatch => DispatchDead(s, z);
    case _ =>
  }

  lemma DispatchDead(s: State, z: Tid)
    requires Inv(s) && Dead(s, z) && DoDispatch(s).Next?
    ensures Dead(DoDispatch(s).state, z)
  {
    var p := TopLevel(s.runq);
    assert s.runq[p][0] in s.runq[p];
  }

  ghost predicate NeverForked(steps: seq<Step>, z: Tid) {
    forall i :: 0 <= i < |steps| && steps[i].Fork? ==> steps[i].t != z
  }

  lemma {:induction false} DeadRun(s: State, steps: seq<Step>, z: Tid)
    requires Inv(s) && Dead(s, z) && NeverForked(steps, z) && Exec(s, steps).Next?
    ensures Dead(Exec(s, steps).state, z)
    decreases |steps|
  {
    if steps != [] {
      var s1 := ExecHead(s, steps);
      StepDead(s, steps[0], z);
      DeadRun(s1, steps[1..], z);
    }
  }

  /**
   thread_exit's promise that no thread comes back from the dead: on every run, and after every part of it,
   a thread that was once a zombie is a zombie or destroyed, and is not running, ready or asleep.
   */
  lemma ZombiesStayDead(s: State, steps: seq<Step>, z: Tid)
    requires Inv(s) && z in s.zombies.items && NeverForked(steps, z)
    ensures forall k :: 0 <= k <= |steps| && Exec(s, steps[..k]).Next? ==>
              var s' := Exec(s, steps[..k]).state; Dead(s', z) && |s'.runq| == NUM_PRIORITIES && Inert(s', z)
  {
    forall k | 0 <= k <= |steps| && Exec(s, steps[..k]).Next?
      ensures var s' := Exec(s, steps[..k]).state; Dead(s', z) && |s'.runq| == NUM_PRIORITIES && Inert(s', z)
    {
      DeadRun(s, steps[..k], z);
      RunInv(s, steps[..k]);
      DeadIsInert(Exec(s, steps[..k]).state, z);
    }
  }

  /** Once a fork has succeeded, going to sleep never needs memory. */
  lemma SleepNeverAllocates(s: State, addr: Addr)
    requires Inv(s) && s.forked && s.cur.Some?
    ensures !NeedsMemory(s.sleepers)
    ensures DoSleep(s, addr, false).Next? && DoSleep(s, addr, false).state.sleepers.max == s.sleepers.max
  {
    NumThreadsCounts(s);
  }

  lemma StepForked(s: State, step: Step)
    requires Shape(s) && s.forked && Apply(s, step).Next?
    ensures Apply(s, step).state.forked
  {
  }

  lemma {:induction false} ForkedStays(s: State, steps: seq<Step>)
    requires Inv(s) && s.forked && Exec(s, steps).Next?
    ensures Exec(s, steps).state.forked
    decreases |steps|
  {
    if steps != [] {
      StepInv(s, steps[0]);
      StepForked(s, steps[0]);
      ForkedStays(Apply(s, steps[0]).state, steps[1..]);
    }
  }

  /** On every run from boot, from the first successful fork on, no sleep fails for want of memory. */
  lemma SleepSafeOnEveryRun(boot: Tid, steps: seq<Step>, addr: Addr)
    requires Exec(BootState(boot), steps).Next?
    ensures var s := Exec(BootState(boot), steps).state;
            Shape(s) && (s.forked && s.cur.Some? ==> DoSleep(s, addr, false).Next?)
  {
    RunInv(BootState(boot), steps);
    var s := Exec(BootState(boot), steps).state;
    if s.forked && s.cur.Some? {
      SleepNeverAllocates(s, addr);
    }
  }

  function BootState(t: Tid): (s: State)
    ensures Inv(s)
  {
    BootInv(t);
    Boot(t)
  }

  // ---------------------------------------------------------------- bounded waiting

  /** How far level i is above level p. */
  function Above(p: nat, i: nat): nat { if i > p then i - p else 0 }

  ghost function SumAbove(threads: map<Tid, Thread>, ts: seq<Tid>, p: nat): nat
    requires forall t :: t in ts ==> t in threads
  {
    if ts == [] then 0 else Above(p, threads[ts[0]].prio) + SumAbove(threads, ts[1..], p)
  }

  ghost function QueueAbove(runq: seq<seq<Tid>>, p: nat): nat
    requires |runq| == NUM_PRIORITIES
  {
    Above(p, 0) * |runq[0]| + Above(p, 1) * |runq[1]| + Above(p, 2) * |runq[2]| + Above(p, 3) * |runq[3]|
  }

  ghost function CurAbove(s: State, p: nat): nat
    requires Shape(s)
  {
    if s.cur.Some? then Above(p, s.threads[s.cur.value].prio) else 0
  }

  /** The threads ahead at level p, plus how far the other live threads stand above level p. */
  ghost function Potential(s: State, p: nat, k: nat): nat
    requires Shape(s)
  {
    k + QueueAbove(s.runq, p) + CurAbove(s, p) + SumAbove(s.threads, s.sleepers.items, p)
  }

  /** Thread t waits at position k of queue p. */
  ghost predicate Waiting(s: State, t: Tid, p: nat, k: nat) {
    |s.runq| == NUM_PRIORITIES && p < NUM_PRIORITIES && k < |s.runq[p]| && s.runq[p][k] == t
  }

  lemma {:induction false} SumFrame(a: map<Tid, Thread>, b: map<Tid, Thread>, ts: seq<Tid>, p: nat)
    requires forall t :: t in ts ==> t in a && t in b && a[t].prio == b[t].prio
    ensures SumAbove(a, ts, p) == SumAbove(b, ts, p)
  {
    if ts != [] {
      SumFrame(a, b, ts[1..], p);
    }
  }

  lemma {:induction false} SumAppend(threads: map<Tid, Thread>, ts: seq<Tid>, t: Tid, p: nat)
    requires t in threads && forall u :: u in ts ==> u in threads
    ensures SumAbove(threads, ts + [t], p) == SumAbove(threads, ts, p) + Above(p, threads[t].prio)
  {
    if ts == [] {
      assert ts + [t] == [t];
    } else {
      assert (ts + [t])[1..] == ts[1..] + [t];
      SumAppend(threads, ts[1..], t, p);
    }
  }

  lemma {:induction false} SumAsleep(threads: map<Tid, Thread>, ts: seq<Tid>, addr: Addr, p: nat)
    requires forall t :: t in ts ==> t in threads
    ensures SumAbove(threads, ts, p) ==
            SumAbove(threads, Asleep(threads, ts, addr, true), p) + SumAbove(threads, Asleep(threads, ts, addr, false), p)
  {
    if ts != [] {
      SumAsleep(threads, ts[1..], addr, p);
    }
  }

  lemma EnqueueAbove(s: State, t: Tid, p: nat)
    requires Levels(s) && t in s.threads && s.threads[t].prio < NUM_PRIORITIES
    ensures QueueAbove(Enqueue(s, t).runq, p) == QueueAbove(s.runq, p) + Above(p, s.threads[t].prio)
  {
  }

  lemma {:induction false} EnqueueAllAbove(s: State, ts: seq<Tid>, p: nat)
    requires Levels(s) && forall t :: t in ts ==> t in s.threads && s.threads[t].prio < NUM_PRIORITIES
    ensures QueueAbove(EnqueueAll(s, ts).runq, p) == QueueAbove(s.runq, p) + SumAbove(s.threads, ts, p)
    ensures forall i :: 0 <= i < NUM_PRIORITIES ==> s.runq[i] <= EnqueueAll(s, ts).runq[i]
    decreases |ts|
  {
    if ts != [] {
      EnqueueAbove(s, ts[0], p);
      EnqueueAllAbove(Enqueue(s, ts[0]), ts[1..], p);
    }
  }

  function ForkCost(step: Step, p: nat): nat {
    if step.Fork? && p == 0 then 1 else 0
  }

  function DispatchCost(step: Step): nat { if step.Dispatch? then 1 else 0 }

  /** A step that is not t's own dispatch leaves t waiting, and each dispatch uses potential up. */
  lemma WaitStep(s: State, step: Step, t: Tid, p: nat, k: nat) returns (k': nat)
    requires Inv(s) && Waiting(s, t, p, k) && Apply(s, step).Next?
    requires step.Dispatch? ==> Apply(s, step).state.cur != Some(t)
    ensures Inv(Apply(s, step).state) && Waiting(Apply(s, step).state, t, p, k')
    ensures Potential(Apply(s, step).state, p, k') + DispatchCost(step) <= Potential(s, p, k) + ForkCost(step, p)
  {
    StepInv(s, step);
    k' := k;
    match step
    case Fork(_, _, _) => WaitFork(s, step, t, p, k);
    case Yield(_) => WaitYield(s, step, t, p, k);
    case Sleep(addr, mem) => WaitSleep(s, step, t, p, k);
    case Exit(mem) => WaitExit(s, step, t, p, k);
    case Wakeup(addr, grants) => WaitWakeup(s, step, t, p, k);
    case Dispatch => k' := WaitDispatch(s, t, p, k);
  }

  lemma WaitFork(s: State, step: Step, t: Tid, p: nat, k: nat)
    requires Shape(s) && Waiting(s, t, p, k) && step.Fork? && Apply(s, step).Next? && Shape(Apply(s, step).state)
    ensures Waiting(Apply(s, step).state, t, p, k)
    ensures Potential(Apply(s, step).state, p, k) <= Potential(s, p, k) + ForkCost(step, p)
  {
    ForkState(s, step.t, step.vm, step.grants);
    if step.grants >= ForkNeeds(s) {
      WaitBorn(s, ForkRoom(s, step.grants), step.t, step.vm, t, p, k);
    }
  }

  lemma WaitBorn(s: State, room: State, born: Tid, vm: bool, t: Tid, p: nat, k: nat)
    requires Shape(s) && Waiting(s, t, p, k) && s.cur.Some? && born !in s.threads
    requires room == Roomier(s, room.sleepers.max, room.zombies.max, room.slots) && Levels(room) && Shape(Born(room, born, vm))
    ensures Waiting(Born(room, born, vm), t, p, k)
    ensures Potential(Born(room, born, vm), p, k) <= Potential(s, p, k) + if p == 0 then 1 else 0
  {
    var s' := Born(room, born, vm);
    SumFrame(s.threads, s'.threads, s.sleepers.items, p);
    EnqueueAbove(room.(threads := s'.threads), born, p);
  }

  lemma WaitYield(s: State, step: Step, t: Tid, p: nat, k: nat)
    requires Shape(s) && Waiting(s, t, p, k) && step.Yield? && Apply(s, step).Next? && Shape(Apply(s, step).state)
    ensures Waiting(Apply(s, step).state, t, p, k)
    ensures Potential(Apply(s, step).state, p, k) <= Potential(s, p, k)
  {
    if s.cur.Some? {
      EnqueueAbove(s, s.cur.value, p);
    }
  }

  lemma WaitSleep(s: State, step: Step, t: Tid, p: nat, k: nat)
    requires Shape(s) && Waiting(s, t, p, k) && step.Sleep? && Apply(s, step).Next? && Shape(Apply(s, step).state)
    ensures Waiting(Apply(s, step).state, t, p, k)
    ensures Potential(Apply(s, step).state, p, k) <= Potential(s, p, k)
  {
    var s', me := Apply(s, step).state, s.cur.value;
    SumFrame(s.threads, s'.threads, s.sleepers.items, p);
    SumAppend(s'.threads, s.sleepers.items, me, p);
  }

  lemma WaitExit(s: State, step: Step, t: Tid, p: nat, k: nat)
    requires Shape(s) && Waiting(s, t, p, k) && step.Exit? && Apply(s, step).Next? && Shape(Apply(s, step).state)
    ensures Waiting(Apply(s, step).state, t, p, k)
    ensures Potential(Apply(s, step).state, p, k) <= Potential(s, p, k)
  {
    SumFrame(s.threads, Apply(s, step).state.threads, s.sleepers.items, p);
  }

  lemma WaitWakeup(s: State, step: Step, t: Tid, p: nat, k: nat)
    requires Shape(s) && Waiting(s, t, p, k) && step.Wakeup? && Apply(s, step).Next? && Shape(Apply(s, step).state)
    ensures Waiting(Apply(s, step).state, t, p, k)
    ensures Potential(Apply(s, step).state, p, k) <= Potential(s, p, k)
  {
    var up, rest := Asleep(s.threads, s.sleepers.items, step.addr, true), Asleep(s.threads, s.sleepers.items, step.addr, false);
    SumAsleep(s.threads, s.sleepers.items, step.addr, p);
    EnqueueAllAbove(s.(sleepers := s.sleepers.(items := rest)), up, p);
  }

  lemma WaitDispatch(s: State, t: Tid, p: nat, k: nat) returns (k': nat)
    requires Inv(s) && Waiting(s, t, p, k) && DoDispatch(s).Next? && DoDispatch(s).state.cur != Some(t)
    requires Inv(DoDispatch(s).state)
    ensures Waiting(DoDispatch(s).state, t, p, k')
    ensures Potential(DoDispatch(s).state, p, k') + 1 <= Potential(s, p, k)
  {
    DispatchSleepersAbove(s, p);
    k' := WaitChosen(s, t, p, k);
  }

  lemma WaitChosen(s: State, t: Tid, p: nat, k: nat) returns (k': nat)
    requires Shape(s) && Waiting(s, t, p, k) && DoDispatch(s).Next? && DoDispatch(s).state.cur != Some(t)
    requires Shape(DoDispatch(s).state)
    requires var s' := DoDispatch(s).state; SumAbove(s'.threads, s'.sleepers.items, p) == SumAbove(s.threads, s.sleepers.items, p)
    ensures Waiting(DoDispatch(s).state, t, p, k')
    ensures Potential(DoDispatch(s).state, p, k') + 1 <= Potential(s, p, k)
  {
    var q := TopLevel(s.runq);
    assert s.runq[p] != [] && p <= q;
    k' := if q == p then k - 1 else k;
    DispatchRuns(s, q);
    ChosenAbove(s, q, p);
  }

  /** The dispatched thread is the head of the highest queue, one level down. */
  lemma DispatchRuns(s: State, q: int)
    requires Shape(s) && DoDispatch(s).Next? && q == TopLevel(s.runq) && Shape(DoDispatch(s).state)
    ensures var s' := DoDispatch(s).state;
            && q >= 0 && s.cur.None? && s'.runq == s.runq[q := s.runq[q][1..]] && s'.cur == Some(s.runq[q][0])
            && s'.threads[s.runq[q][0]].prio == (if q > 0 then q - 1 else 0)
  {
    assert s.runq[q][0] in s.runq[q];
  }

  lemma DispatchSleepersAbove(s: State, p: nat)
    requires Inv(s) && DoDispatch(s).Next? && Shape(DoDispatch(s).state)
    ensures var s' := DoDispatch(s).state; SumAbove(s'.threads, s'.sleepers.items, p) == SumAbove(s.threads, s.sleepers.items, p)
  {
    var q := TopLevel(s.runq);
    var s' := DoDispatch(s).state;
    assert s.runq[q][0] in s.runq[q];
    forall x | x in s.sleepers.items
      ensures x in s'.threads && s'.threads[x].prio == s.threads[x].prio
    {
      SleeperNotReady(s, q, x);
    }
    SumFrame(s.threads, s'.threads, s.sleepers.items, p);
  }

  /** A sleeper is not the head of a run queue. */
  lemma SleeperNotReady(s: State, q: int, x: Tid)
    requires Inv(s) && 0 <= q < NUM_PRIORITIES && s.runq[q] != [] && x in s.sleepers.items
    ensures x != s.runq[q][0]
  {
    assert multiset(s.sleepers.items)[x] >= 1;
    ExactlyOnePlace(s, x);
    if x == s.runq[q][0] {
      InRunBag(s.runq, q, x);
      assert false;
    }
  }

  lemma ChosenAbove(s: State, q: int, p: nat)
    requires |s.runq| == NUM_PRIORITIES && 0 <= q < NUM_PRIORITIES && s.runq[q] != []
    ensures QueueAbove(s.runq, p) == QueueAbove(s.runq[q := s.runq[q][1..]], p) + Above(p, q)
  {
  }

  ghost function Dispatches(steps: seq<Step>): nat {
    if steps == [] then 0 else DispatchCost(steps[0]) + Dispatches(steps[1..])
  }

  ghost function Forks(steps: seq<Step>): nat {
    if steps == [] then 0 else (if steps[0].Fork? then 1 else 0) + Forks(steps[1..])
  }

  /** Thread t is never the one picked during the run. */
  ghost predicate NotPicked(s: State, steps: seq<Step>, t: Tid)
    requires Inv(s) && Exec(s, steps).Next?
    decreases |steps|
  {
    steps == [] ||
    (StepInv(s, steps[0]);
     var s1 := Apply(s, steps[0]).state;
     (steps[0].Dispatch? ==> s1.cur != Some(t)) && NotPicked(s1, steps[1..], t))
  }

  /**
   Bounded waiting: while t waits at position k of queue p, at most Potential(s, p, k) other
   threads are dispatched, plus one for each fork if p is the lowest level.
   */
  lemma {:induction false} BoundedWaiting(s: State, steps: seq<Step>, t: Tid, p: nat, k: nat)
    requires Inv(s) && Waiting(s, t, p, k) && Exec(s, steps).Next? && NotPicked(s, steps, t)
    ensures Dispatches(steps) <= Potential(s, p, k) + (if p == 0 then Forks(steps) else 0)
    ensures exists j: nat :: Waiting(Exec(s, steps).state, t, p, j)
    decreases |steps|
  {
    if steps == [] {
      assert Waiting(Exec(s, steps).state, t, p, k);
    } else {
      var k' := WaitStep(s, steps[0], t, p, k);
      BoundedWaiting(Apply(s, steps[0]).state, steps[1..], t, p, k');
    }
  }
}
