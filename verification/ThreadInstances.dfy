/** Runs from boot on which the thread system needs memory that its preallocations were meant to have found. */
module ThreadInstances {
  import opened Prelude
  import opened Arrays
  import opened Threads
  import opened ThreadRuns

  /** No ring has ever grown. */
  ghost predicate SmallRings(s: State) {
    Levels(s) && forall p :: 0 <= p < NUM_PRIORITIES ==> s.slots[p] == RUNQUEUE_SLOTS
  }

  /** The states along a run: from each the next step leads to the one after it. */
  ghost predicate Trail(states: seq<State>, steps: seq<Step>) {
    |states| == |steps| + 1 && forall i :: 0 <= i < |steps| ==> StepAt(states, steps, i)
  }

  ghost predicate StepAt(states: seq<State>, steps: seq<Step>, i: nat)
    requires |states| == |steps| + 1 && i < |steps|
  {
    Shape(states[i]) && Apply(states[i], steps[i]) == Next(states[i + 1])
  }

  /** The run goes through, from s to end. */
  ghost predicate Leads(s: State, steps: seq<Step>, end: State) {
    exists states :: Trail(states, steps) && states[0] == s && states[|steps|] == end
  }

  lemma NoStep(s: State, steps: seq<Step>)
    requires |steps| == 0
    ensures Leads(s, steps, s)
  {
    assert Trail([s], steps);
  }

  lemma OneStep(s: State, step: Step, s1: State)
    requires Shape(s) && Apply(s, step) == Next(s1)
    ensures Leads(s, [step], s1)
  {
    assert StepAt([s, s1], [step], 0);
    assert Trail([s, s1], [step]);
  }

  lemma ForkLeads(s: State, t: Tid, s1: State)
    requires Shape(s) && DoFork(s, t, false, 2) == Next(s1)
    ensures Leads(s, [Fork(t, false, 2)], s1)
  {
    OneStep(s, Fork(t, false, 2), s1);
  }

  lemma YieldLeads(s: State, mem: bool, s1: State)
    requires Shape(s) && DoYield(s, mem) == Next(s1)
    ensures Leads(s, [Yield(mem)], s1)
  {
    OneStep(s, Yield(mem), s1);
  }

  lemma SleepLeads(s: State, addr: Addr, s1: State)
    requires Shape(s) && DoSleep(s, addr, false) == Next(s1)
    ensures Leads(s, [Sleep(addr, false)], s1)
  {
    OneStep(s, Sleep(addr, false), s1);
  }

  lemma ExitLeads(s: State, s1: State)
    requires Shape(s) && DoExit(s, false) == Next(s1)
    ensures Leads(s, [Exit(false)], s1)
  {
    OneStep(s, Exit(false), s1);
  }

  lemma DispatchLeads(s: State, s1: State)
    requires Shape(s) && DoDispatch(s) == Next(s1)
    ensures Leads(s, [Dispatch], s1)
  {
    OneStep(s, Dispatch, s1);
  }

  lemma TwoSteps(s: State, a: Step, s1: State, b: Step, s2: State)
    requires Leads(s, [a], s1) && Leads(s1, [b], s2)
    ensures Leads(s, [a, b], s2)
  {
    Joined(s, [a], s1, [b], s2, [a, b]);
  }

  lemma ThreeSteps(s: State, a: Step, s1: State, b: Step, s2: State, c: Step, s3: State)
    requires Leads(s, [a], s1) && Leads(s1, [b], s2) && Leads(s2, [c], s3)
    ensures Leads(s, [a, b, c], s3)
  {
    TwoSteps(s1, b, s2, c, s3);
    Joined(s, [a], s1, [b, c], s3, [a, b, c]);
  }

  /** Two runs, one after the other. */
  lemma Joined(s: State, a: seq<Step>, s1: State, b: seq<Step>, end: State, ab: seq<Step>)
    requires Leads(s, a, s1) && Leads(s1, b, end) && ab == a + b
    ensures Leads(s, ab, end)
  {
    var xs :| Trail(xs, a) && xs[0] == s && xs[|a|] == s1;
    var ys :| Trail(ys, b) && ys[0] == s1 && ys[|b|] == end;
    var states := xs + ys[1..];
    forall i | 0 <= i < |ab|
      ensures StepAt(states, ab, i)
    {
      if i < |a| {
        assert StepAt(xs, a, i);
      } else {
        assert StepAt(ys, b, i - |a|);
        assert states[i] == ys[i - |a|] && states[i + 1] == ys[i - |a| + 1];
      }
    }
    assert Trail(states, ab);
  }

  /** A run from a good state, so described, is what Exec does. */
  lemma {:induction false} LeadsIsExec(s: State, steps: seq<Step>, end: State)
    requires Inv(s) && Leads(s, steps, end)
    ensures Exec(s, steps) == Next(end) && Inv(end)
    decreases |steps|
  {
    var states :| Trail(states, steps) && states[0] == s && states[|steps|] == end;
    if steps != [] {
      assert StepAt(states, steps, 0);
      StepInv(s, steps[0]);
      TrailRest(states, steps);
      LeadsIsExec(states[1], steps[1..], end);
    }
  }

  lemma TrailRest(states: seq<State>, steps: seq<Step>)
    requires Trail(states, steps) && steps != []
    ensures Leads(states[1], steps[1..], states[|steps|])
  {
    forall i | 0 <= i < |steps| - 1
      ensures StepAt(states[1..], steps[1..], i)
    {
      assert StepAt(states, steps, i + 1);
    }
    assert Trail(states[1..], steps[1..]);
  }

  /** What a fork of t does while there are fewer than 32 threads, with memory for the two arrays only. */
  ghost function AfterFork(s: State, t: Tid): State
    requires Levels(s) && s.cur.Some? && s.cur.value in s.threads
  {
    s.(threads := s.threads[t := Thread(PRIORITY_NORMAL, None, false, s.threads[s.cur.value].cwd, true)],
       runq := s.runq[PRIORITY_NORMAL := s.runq[PRIORITY_NORMAL] + [t]],
       sleepers := s.sleepers.(max := GrownMax(s.sleepers.max, s.numthreads + 1)),
       zombies := s.zombies.(max := GrownMax(s.zombies.max, s.numthreads + 1)),
       numthreads := s.numthreads + 1, forked := true)
  }

  lemma PlainFork(s: State, t: Tid) returns (s1: State)
    requires Inv(s) && s.cur.Some? && t !in s.threads && SmallRings(s) && s.numthreads < RUNQUEUE_SLOTS
    ensures s1 == AfterFork(s, t) && Leads(s, [Fork(t, false, 2)], s1) && Inv(s1)
  {
    s1 := AfterFork(s, t);
    assert ForkNeeds(s) == 2 && Preallocated(s.slots, s.numthreads + 1, 0, 0) == s.slots by {
      ForkFits(s);
      NoneShort(s.slots, s.numthreads + 1, 0);
    }
    assert !Full(s, PRIORITY_NORMAL) by {
      NumThreadsCounts(s);
    }
    ForkWith(s, t, 2);
    ForkInv(s, t, false, 2);
    ForkLeads(s, t, s1);
  }

  lemma ForkWith(s: State, t: Tid, grants: nat)
    requires Shape(s) && s.cur.Some? && t !in s.threads && !Full(s, PRIORITY_NORMAL)
    requires ForkNeeds(s) == grants >= 2 && Preallocated(s.slots, s.numthreads + 1, 0, grants - 2) == s.slots
    ensures DoFork(s, t, false, grants) == Next(AfterFork(s, t))
  {
    ForkState(s, t, false, grants);
    var p := PRIORITY_NORMAL;
    assert s.slots[p := s.slots[p]] == s.slots;
  }

  /** The forks of threads k + 1 to k + n. */
  ghost function Births(k: nat, n: nat): seq<Step> {
    seq(n, i requires 0 <= i < n => Fork(k + 1 + i, false, 2))
  }

  lemma BirthsCons(k: nat, n: nat)
    requires n > 0
    ensures Births(k, n) == [Fork(k + 1, false, 2)] + Births(k + 1, n - 1)
  {
  }

  lemma BirthThen(s: State, k: nat, n: nat, s1: State, end: State)
    requires n > 0 && Leads(s, [Fork(k + 1, false, 2)], s1) && Leads(s1, Births(k + 1, n - 1), end)
    ensures Leads(s, Births(k, n), end)
  {
    BirthsCons(k, n);
    Joined(s, [Fork(k + 1, false, 2)], s1, Births(k + 1, n - 1), end, Births(k, n));
  }

  // ---------------------------------------------------------------- a yield

  /** Thread 0 has forked threads 1 to k and is still running. */
  ghost predicate Family(s: State, k: nat)
    requires Shape(s)
  {
    && s.cur == Some(0) && s.threads[0].prio == PRIORITY_NORMAL && s.numthreads == k + 1
    && |s.runq[0]| == |s.runq[2]| == |s.runq[3]| == |s.sleepers.items| == |s.zombies.items| == 0
    && SmallRings(s) && (forall t :: t in s.threads ==> t <= k) && (k > 0 ==> s.forked)
  }

  lemma {:induction false} FamilyGrows(s: State, k: nat, n: nat) returns (end: State)
    requires Inv(s) && Family(s, k) && k + n < RUNQUEUE_SLOTS
    ensures Leads(s, Births(k, n), end) && Inv(end) && Family(end, k + n)
    decreases n
  {
    if n == 0 {
      end := s;
      NoStep(s, Births(k, n));
    } else {
      var s1 := PlainFork(s, k + 1);
      end := FamilyGrows(s1, k + 1, n - 1);
      BirthThen(s, k, n, s1, end);
    }
  }

  /** Preallocation is one slot short: the boot thread forks 31 threads, and cannot yield without memory. */
  lemma OneSlotShort(boot: State, n: nat)
    requires boot == BootState(0) && n == RUNQUEUE_SLOTS - 1
    ensures Exec(boot, Births(0, n)).Next?
    ensures var s := Exec(boot, Births(0, n)).state; Shape(s) && s.forked && DoYield(s, false) == Panic
  {
    var s := FamilyGrows(boot, 0, n);
    LeadsIsExec(boot, Births(0, n), s);
    YieldNeedsMemory(s, 0);
    NumThreadsCounts(s);
  }

  // ---------------------------------------------------------------- an exit after the room was given back

  /** Thread 1 has forked threads 2 to k while thread 0, which has run, is next. */
  ghost predicate Brood(s: State, k: nat)
    requires Shape(s)
  {
    && s.cur == Some(1) && s.threads[1].prio == 0 && s.numthreads == k + 1 && k < s.zombies.max && s.forked
    && s.runq[2] == s.runq[3] == [] && s.runq[PRIORITY_NORMAL] != [] && s.runq[PRIORITY_NORMAL][0] == 0
    && 0 in s.threads && !s.threads[0].unstarted && SmallRings(s) && forall t :: t in s.threads ==> t <= k
  }

  lemma {:induction false} BroodGrows(s: State, k: nat, n: nat) returns (end: State)
    requires Inv(s) && Brood(s, k) && 0 < k && k + n < RUNQUEUE_SLOTS
    ensures Leads(s, Births(k, n), end) && Inv(end) && Brood(end, k + n)
    decreases n
  {
    if n == 0 {
      end := s;
      NoStep(s, Births(k, n));
    } else {
      var s1 := BroodBirth(s, k);
      end := BroodGrows(s1, k + 1, n - 1);
      BirthThen(s, k, n, s1, end);
    }
  }

  lemma BroodBirth(s: State, k: nat) returns (s1: State)
    requires Inv(s) && Brood(s, k) && 0 < k < RUNQUEUE_SLOTS - 1
    ensures Leads(s, [Fork(k + 1, false, 2)], s1) && Inv(s1) && Brood(s1, k + 1)
  {
    s1 := PlainFork(s, k + 1);
  }

  /** The boot thread forks thread 1 and lets it run. */
  lemma BroodBegins(boot: State) returns (s: State)
    requires boot == BootState(0)
    ensures Leads(boot, [Fork(1, false, 2), Yield(false), Dispatch], s) && Inv(s) && Brood(s, 1)
  {
    var s1 := FirstFork(boot);
    var s2;
    s2, s := BroodStates(s1);
    ThreeSteps(boot, Fork(1, false, 2), s1, Yield(false), s2, Dispatch, s);
  }

  lemma BroodStates(s1: State) returns (s2: State, s: State)
    requires Inv(s1) && JustForked(s1)
    ensures Leads(s1, [Yield(false)], s2) && Leads(s2, [Dispatch], s) && Inv(s) && Brood(s, 1)
  {
    s2 := YieldStep(s1, 0, 1);
    s := NewStep(s2, 1, 1);
  }

  lemma FirstFork(boot: State) returns (s1: State)
    requires boot == BootState(0)
    ensures Leads(boot, [Fork(1, false, 2)], s1) && Inv(s1) && JustForked(s1)
  {
    s1 := PlainFork(boot, 1);
    ForkedOnce(boot, s1);
  }

  /** The boot thread has forked thread 1. */
  ghost predicate JustForked(s: State) {
    && s.threads == map[0 := Thread(1, None, false, false, false), 1 := Thread(1, None, false, false, true)]
    && |s.runq| == NUM_PRIORITIES && s.runq[1] == [1] && s.runq[0] == s.runq[2] == s.runq[3] == []
    && SmallRings(s) && s.cur == Some(0) && s.numthreads == 2 && s.forked && s.zombies == s.sleepers == Arr([], 2)
  }

  lemma ForkedOnce(boot: State, s1: State)
    requires boot == BootState(0) && s1 == AfterFork(boot, 1)
    ensures JustForked(s1)
  {
    TwoPlaces(boot.numthreads);
  }

  lemma TwoPlaces(n: int)
    requires n == 1
    ensures GrownMax(0, n + 1) == 2
  {
    var max: nat := 2;
    assert GrownMax(max, n + 1) == max;
  }

  /** A yield that finds a slot. */
  lemma YieldStep(s: State, t: Tid, p: nat) returns (s1: State)
    requires Inv(s) && s.cur == Some(t) && s.threads[t].prio == p && !Full(s, p)
    ensures s1 == s.(cur := None, runq := s.runq[p := s.runq[p] + [t]]) && Leads(s, [Yield(false)], s1) && Inv(s1)
  {
    s1 := s.(cur := None, runq := s.runq[p := s.runq[p] + [t]]);
    assert s.slots[p := s.slots[p]] == s.slots;
    YieldInv(s, false);
    YieldLeads(s, false, s1);
  }

  /** A thread that has never run is dispatched. */
  lemma NewStep(s: State, t: Tid, p: nat) returns (s1: State)
    requires Inv(s) && s.cur.None? && p == TopLevel(s.runq) && s.runq[p][0] == t && t in s.threads && s.threads[t].unstarted
    ensures s1 == s.(cur := Some(t), runq := s.runq[p := s.runq[p][1..]],
                     threads := s.threads[t := s.threads[t].(prio := if p > 0 then p - 1 else 0, unstarted := false)])
    ensures Leads(s, [Dispatch], s1) && Inv(s1)
  {
    assert t in s.runq[p];
    s1 := Chosen(s, p);
    ChosenInv(s, p);
    DispatchLeads(s, s1);
  }

  /** Thread 1 lets the boot thread run again, which finds no zombies and gives their room back. */
  lemma BroodEnds(s: State, k: nat) returns (end: State)
    requires Inv(s) && Brood(s, k) && 16 <= k < RUNQUEUE_SLOTS - 1
    ensures Leads(s, [Yield(false), Dispatch], end) && Shape(end) && end.forked && DoExit(end, false) == Panic
  {
    var s1;
    s1, end := BroodYields(s, k);
    TwoSteps(s, Yield(false), s1, Dispatch, end);
  }

  lemma BroodYields(s: State, k: nat) returns (s1: State, end: State)
    requires Inv(s) && Brood(s, k) && 16 <= k < RUNQUEUE_SLOTS - 1
    ensures Leads(s, [Yield(false)], s1) && Leads(s1, [Dispatch], end)
    ensures Shape(end) && end.forked && DoExit(end, false) == Panic
  {
    assert !Full(s, 0) by {
      NumThreadsCounts(s);
    }
    s1 := YieldStep(s, 1, 0);
    end := BootReturns(s1);
  }

  lemma BootReturns(s: State) returns (end: State)
    requires Inv(s) && s.cur.None? && s.zombies.max > 16 && s.forked && s.runq[2] == s.runq[3] == []
    requires s.runq[PRIORITY_NORMAL] != [] && s.runq[PRIORITY_NORMAL][0] == 0 && 0 in s.threads && !s.threads[0].unstarted
    ensures Leads(s, [Dispatch], end) && Shape(end) && end.forked && DoExit(end, false) == Panic
  {
    ZombieRoomGivenBack(s);
    end := DoDispatch(s).state;
    DispatchLeads(s, end);
  }

  /** The run up to the boot thread's exit, with n threads forked by thread 1. */
  ghost function GiveBackRun(n: nat): seq<Step> {
    [Fork(1, false, 2), Yield(false), Dispatch] + (Births(1, n) + [Yield(false), Dispatch])
  }

  /** With 17 threads alive and nobody dead, the boot thread cannot exit without memory. */
  lemma ExitAfterGiveBack(boot: State, n: nat)
    requires boot == BootState(0) && 15 <= n < RUNQUEUE_SLOTS - 2
    ensures Exec(boot, GiveBackRun(n)).Next?
    ensures var s := Exec(boot, GiveBackRun(n)).state; Shape(s) && s.forked && DoExit(s, false) == Panic
  {
    var s1 := BroodBegins(boot);
    var s2 := BroodGrows(s1, 1, n);
    var s3 := BroodEnds(s2, n + 1);
    Joined(s1, Births(1, n), s2, [Yield(false), Dispatch], s3, Births(1, n) + [Yield(false), Dispatch]);
    Joined(boot, [Fork(1, false, 2), Yield(false), Dispatch], s1, Births(1, n) + [Yield(false), Dispatch], s3, GiveBackRun(n));
    LeadsIsExec(boot, GiveBackRun(n), s3);
  }

  // ---------------------------------------------------------------- an exit among zombies

  /** The boot thread sleeps; thread z + 1 runs, and those before it are zombies. */
  ghost predicate Chain(s: State, z: nat)
    requires Shape(s)
  {
    && s.cur == Some(z + 1) && s.numthreads == 2 && |s.zombies.items| == z && s.zombies.max == (if z == 0 then 2 else 6)
    && |s.runq[0]| == |s.runq[1]| == |s.runq[2]| == |s.runq[3]| == 0
    && s.forked && SmallRings(s) && forall t :: t in s.threads ==> t <= z + 1
  }

  /** The running thread forks its successor and exits, and the successor, being new, destroys nobody. */
  ghost function Turn(z: nat): seq<Step> {
    [Fork(z + 2, false, 2), Exit(false), Dispatch]
  }

  lemma ChainTurn(s: State, z: nat) returns (s3: State)
    requires Inv(s) && Chain(s, z) && z < 6
    ensures Leads(s, Turn(z), s3) && Inv(s3) && Chain(s3, z + 1)
  {
    var s1, s2;
    s1 := ChainFork(s, z);
    s2, s3 := ChainHandsOver(s1, z);
    ThreeSteps(s, Fork(z + 2, false, 2), s1, Exit(false), s2, Dispatch, s3);
  }

  lemma ChainFork(s: State, z: nat) returns (s1: State)
    requires Inv(s) && Chain(s, z) && z < 6
    ensures Leads(s, [Fork(z + 2, false, 2)], s1) && Inv(s1) && Parent(s1, z)
  {
    s1 := PlainFork(s, z + 2);
    SixPlaces(s.zombies.max, s.numthreads + 1);
  }

  /** Thread z + 1 has forked its successor. */
  ghost predicate Parent(s: State, z: nat)
    requires Shape(s)
  {
    && s.cur == Some(z + 1) && s.numthreads == 3 && |s.zombies.items| == z && s.zombies.max == 6
    && |s.runq[0]| == |s.runq[2]| == |s.runq[3]| == 0 && s.runq[1] == [z + 2] && z + 2 in s.threads && s.threads[z + 2].unstarted
    && s.forked && SmallRings(s) && forall t :: t in s.threads ==> t <= z + 2
  }

  lemma ChainHandsOver(s1: State, z: nat) returns (s2: State, s3: State)
    requires Inv(s1) && Parent(s1, z) && z < 6
    ensures Leads(s1, [Exit(false)], s2) && Leads(s2, [Dispatch], s3) && Inv(s3) && Chain(s3, z + 1)
  {
    s2 := ExitStep(s1, z + 1);
    s3 := NewStep(s2, z + 2, 1);
  }

  /** An exit that finds room. */
  lemma ExitStep(s: State, t: Tid) returns (s1: State)
    requires Inv(s) && s.cur == Some(t) && |s.zombies.items| < s.zombies.max
    ensures s1 == s.(cur := None, threads := s.threads[t := s.threads[t].(vmspace := false, cwd := false)],
                     zombies := s.zombies.(items := s.zombies.items + [t]), numthreads := s.numthreads - 1)
    ensures Leads(s, [Exit(false)], s1) && Inv(s1)
  {
    assert s.numthreads > 0 by {
      NumThreadsCounts(s);
    }
    s1 := DoExit(s, false).state;
    ExitInv(s, false);
    ExitLeads(s, s1);
  }

  lemma SixPlaces(max: nat, n: int)
    requires (max == 2 || max == 6) && n == 3
    ensures GrownMax(max, n) == 6
  {
    var six: nat := 6;
    assert GrownMax(six, n) == six;
  }

  /** n turns, the first of them thread z + 1's. */
  ghost function Turns(z: nat, n: nat): seq<Step>
    decreases n - z
  {
    if z >= n then [] else Turn(z) + Turns(z + 1, n)
  }

  lemma {:induction false} ChainGrows(s: State, z: nat, n: nat) returns (end: State)
    requires Inv(s) && Chain(s, z) && z <= n <= 6
    ensures Leads(s, Turns(z, n), end) && Inv(end) && Chain(end, n)
    decreases n - z
  {
    if z == n {
      end := s;
      NoStep(s, Turns(z, n));
    } else {
      var s1 := ChainTurn(s, z);
      end := ChainGrows(s1, z + 1, n);
      Joined(s, Turn(z), s1, Turns(z + 1, n), end, Turns(z, n));
    }
  }

  lemma ChainBegins(boot: State) returns (s: State)
    requires boot == BootState(0)
    ensures Leads(boot, [Fork(1, false, 2), Sleep(Other(0), false), Dispatch], s) && Inv(s) && Chain(s, 0)
  {
    var s1 := FirstFork(boot);
    var s2;
    s2, s := SleepingBoot(s1);
    ThreeSteps(boot, Fork(1, false, 2), s1, Sleep(Other(0), false), s2, Dispatch, s);
  }

  lemma SleepingBoot(s1: State) returns (s2: State, s: State)
    requires Inv(s1) && JustForked(s1)
    ensures Leads(s1, [Sleep(Other(0), false)], s2) && Leads(s2, [Dispatch], s) && Inv(s) && Chain(s, 0)
  {
    s2 := SleepStep(s1, 0, Other(0));
    s := NewStep(s2, 1, 1);
  }

  /** A sleep that finds room. */
  lemma SleepStep(s: State, t: Tid, addr: Addr) returns (s1: State)
    requires Inv(s) && s.cur == Some(t) && |s.sleepers.items| < s.sleepers.max
    ensures s1 == s.(cur := None, threads := s.threads[t := s.threads[t].(sleepaddr := Some(addr))],
                     sleepers := s.sleepers.(items := s.sleepers.items + [t]))
    ensures Leads(s, [Sleep(addr, false)], s1) && Inv(s1)
  {
    s1 := DoSleep(s, addr, false).state;
    SleepInv(s, addr, false);
    SleepLeads(s, addr, s1);
  }

  /** The boot thread forks thread 1 and sleeps; then n threads take their turns. */
  ghost function ChainRun(n: nat): seq<Step> {
    [Fork(1, false, 2), Sleep(Other(0), false), Dispatch] + Turns(0, n)
  }

  /**
   Never more than three threads alive, and no room given back: threads that fork one successor each and
   exit fill the room for zombies, and the seventh cannot exit without memory.
   */
  lemma ExitAmongZombies(boot: State, n: nat)
    requires boot == BootState(0) && n == 6
    ensures Exec(boot, ChainRun(n)).Next?
    ensures var s := Exec(boot, ChainRun(n)).state;
            Shape(s) && s.forked && s.numthreads == 2 && s.zombies.max == 6 && DoExit(s, false) == Panic
  {
    var s1 := ChainBegins(boot);
    var end := ChainGrows(s1, 0, n);
    Joined(boot, [Fork(1, false, 2), Sleep(Other(0), false), Dispatch], s1, Turns(0, n), end, ChainRun(n));
    LeadsIsExec(boot, ChainRun(n), end);
  }

  // ---------------------------------------------------------------- a wakeup from an interrupt

  /** m threads are ready at the normal level; everybody else sleeps on one address, at the lowest. */
  ghost predicate Dozing(s: State, m: nat)
    requires Shape(s)
  {
    && s.cur.None? && |s.runq[1]| == m && |s.runq[0]| == |s.runq[2]| == |s.runq[3]| == |s.zombies.items| == 0
    && s.forked && s.numthreads == RUNQUEUE_SLOTS == s.slots[0]
    && forall t :: t in s.sleepers.items ==> s.threads[t].sleepaddr == Some(Other(0)) && s.threads[t].prio == 0
  }

  lemma DozeOff(s: State, m: nat) returns (s2: State)
    requires Inv(s) && Dozing(s, m) && m > 0
    ensures Leads(s, [Dispatch, Sleep(Other(0), false)], s2) && Inv(s2) && Dozing(s2, m - 1)
  {
    DispatchInv(s);
    var s1 := DoDispatch(s).state;
    DozerRuns(s, m);
    DispatchLeads(s, s1);
    SleepNeverAllocates(s1, Other(0));
    s2 := SleepStep(s1, s1.cur.value, Other(0));
    TwoSteps(s, Dispatch, s1, Sleep(Other(0), false), s2);
  }

  lemma DozerRuns(s: State, m: nat)
    requires Inv(s) && Dozing(s, m) && m > 0 && DoDispatch(s).Next? && Shape(DoDispatch(s).state)
    ensures var s1 := DoDispatch(s).state; s1.cur.Some? && Dozing(s1.(cur := None), m - 1) && s1.threads[s1.cur.value].prio == 0
  {
  }

  ghost function Doze(m: nat): seq<Step> {
    if m == 0 then [] else [Dispatch, Sleep(Other(0), false)] + Doze(m - 1)
  }

  lemma {:induction false} AllDoze(s: State, m: nat) returns (end: State)
    requires Inv(s) && Dozing(s, m)
    ensures Leads(s, Doze(m), end) && Inv(end) && Dozing(end, 0)
    decreases m
  {
    if m == 0 {
      end := s;
      NoStep(s, Doze(m));
    } else {
      var s1 := DozeOff(s, m);
      end := AllDoze(s1, m - 1);
      Joined(s, [Dispatch, Sleep(Other(0), false)], s1, Doze(m - 1), end, Doze(m));
    }
  }

  /** Waking everybody at once takes as many slots as there are threads, and one more. */
  lemma WakeAll(s: State)
    requires Inv(s) && Dozing(s, 0)
    ensures DoWakeup(s, Other(0), 0) == Panic
  {
    var ts := s.sleepers.items;
    AllAsleep(s.threads, ts, Other(0));
    EnqueueAllLow(s, ts);
    NumThreadsCounts(s);
    assert |Woken(s, Other(0))[0]| == s.numthreads == s.slots[0];
    WakeupNeedsMemory(s, Other(0));
  }

  lemma {:induction false} AllAsleep(threads: map<Tid, Thread>, ts: seq<Tid>, addr: Addr)
    requires forall t :: t in ts ==> t in threads && threads[t].sleepaddr == Some(addr)
    ensures Asleep(threads, ts, addr, true) == ts
  {
    if ts != [] {
      AllAsleep(threads, ts[1..], addr);
    }
  }

  lemma {:induction false} EnqueueAllLow(s: State, ts: seq<Tid>)
    requires Levels(s) && forall t :: t in ts ==> t in s.threads && s.threads[t].prio == 0
    ensures |EnqueueAll(s, ts).runq[0]| == |s.runq[0]| + |ts|
    decreases |ts|
  {
    if ts != [] {
      EnqueueAllLow(Enqueue(s, ts[0]), ts[1..]);
    }
  }

  /** The boot thread forks the other 31, yields with memory for it, and all 32 go to sleep. */
  ghost function DozeRun(n: nat): seq<Step> {
    Births(0, n) + ([Yield(true)] + Doze(n + 1))
  }

  /** Nobody is running; an interrupt wakes everybody up, and needs memory for it. */
  lemma WakeupFromInterrupt(boot: State, n: nat)
    requires boot == BootState(0) && n == RUNQUEUE_SLOTS - 1
    ensures Exec(boot, DozeRun(n)).Next?
    ensures var s := Exec(boot, DozeRun(n)).state;
            Shape(s) && s.forked && s.cur.None? && DoWakeup(s, Other(0), 0) == Panic
  {
    var s1 := FamilyGrows(boot, 0, n);
    var s2 := FamilyYields(s1, n);
    var s3 := AllDoze(s2, n + 1);
    Joined(s1, [Yield(true)], s2, Doze(n + 1), s3, [Yield(true)] + Doze(n + 1));
    Joined(boot, Births(0, n), s1, [Yield(true)] + Doze(n + 1), s3, DozeRun(n));
    LeadsIsExec(boot, DozeRun(n), s3);
    WakeAll(s3);
  }

  lemma FamilyYields(s: State, n: nat) returns (s1: State)
    requires Inv(s) && Family(s, n) && n == RUNQUEUE_SLOTS - 1
    ensures Leads(s, [Yield(true)], s1) && Inv(s1) && Dozing(s1, n + 1)
  {
    YieldInv(s, true);
    NumThreadsCounts(s);
    s1 := DoYield(s, true).state;
    YieldLeads(s, true, s1);
  }
}
