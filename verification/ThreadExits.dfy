/**
 Whether thread_exit can run out of memory.  thread_fork preallocates zombies for the threads that
 are alive, not for the zombies already there, and exorcise gives the storage of a large array back.
 */
module ThreadExits {
  import opened Prelude
  import opened Arrays
  import opened Threads
  import opened ThreadRuns

  /** zombies has room for everybody, alive or dead. */
  ghost predicate RoomForAll(s: State) {
    |s.threads| <= s.zombies.max
  }

  /** The step dispatches a thread that has run before, which destroys the zombies. */
  ghost predicate Exorcising(s: State, step: Step)
    requires Shape(s)
  {
    step.Dispatch? && s.cur.None? && TopLevel(s.runq) >= 0 && !Head(s).unstarted
  }

  /** The thread that will run next. */
  ghost function Head(s: State): Thread
    requires Shape(s) && TopLevel(s.runq) >= 0
  {
    var q := s.runq[TopLevel(s.runq)];
    assert q[0] in q;
    s.threads[q[0]]
  }

  ghost predicate Forking(s: State, step: Step)
    requires Shape(s)
  {
    step.Fork? && Apply(s, step).Next? && step.grants >= ForkNeeds(s)
  }

  /** Where there is room for everybody, an exit needs no memory. */
  lemma RoomForExit(s: State)
    requires Inv(s) && RoomForAll(s) && s.cur.Some?
    ensures DoExit(s, false).Next?
  {
    NumThreadsCounts(s);
  }

  /** A fork makes room for everybody exactly if what it preallocates for the living also holds the zombies there are. */
  lemma ForkMakesRoom(s: State, step: Step)
    requires Inv(s) && Forking(s, step)
    ensures var s' := Apply(s, step).state; var n := s.numthreads + 1;
            && (RoomForAll(s') <==> n + |s.zombies.items| <= GrownMax(s.zombies.max, n))
            && (s.zombies.items == [] ==> RoomForAll(s'))
  {
    ForkState(s, step.t, step.vm, step.grants);
    var room := ForkRoom(s, step.grants);
    BornPlacesCount(room, step.t, step.vm);
  }

  lemma BornPlacesCount(s: State, t: Tid, vm: bool)
    requires Levels(s) && s.cur.Some? && s.cur.value in s.threads && t !in s.threads
    ensures |Born(s, t, vm).threads| == |s.threads| + 1
  {
    var me := s.threads[s.cur.value];
    var threads' := s.threads[t := Thread(PRIORITY_NORMAL, None, me.vmspace && vm, me.cwd, true)];
    assert threads'.Keys == s.threads.Keys + {t};
    assert |threads'.Keys| == |s.threads.Keys| + 1;
  }

  /**
   The exact steps that take the room for everybody away: a fork that meets too many zombies, and
   the destruction of zombies when there is room for more than 16.
   */
  lemma RoomStep(s: State, step: Step)
    requires Inv(s) && RoomForAll(s) && Apply(s, step).Next?
    ensures RoomForAll(Apply(s, step).state) <==>
            && (Forking(s, step) ==> s.numthreads + 1 + |s.zombies.items| <= GrownMax(s.zombies.max, s.numthreads + 1))
            && (Exorcising(s, step) ==> s.zombies.max <= 16)
  {
    if Forking(s, step) {
      ForkMakesRoom(s, step);
    } else {
      match step
      case Fork(t, vm, grants) => ForkState(s, t, vm, grants);
      case Dispatch => DispatchRoom(s);
      case Exit(mem) => ExitRoom(s, mem);
      case Sleep(addr, mem) => assert DoSleep(s, addr, mem).state.threads.Keys == s.threads.Keys;
      case _ =>
    }
  }

  lemma ExitRoom(s: State, mem: bool)
    requires Inv(s) && RoomForAll(s) && DoExit(s, mem).Next?
    ensures RoomForAll(DoExit(s, mem).state)
  {
    RoomForExit(s);
    assert DoExit(s, mem).state.threads.Keys == s.threads.Keys;
  }

  lemma DispatchRoom(s: State)
    requires Inv(s) && RoomForAll(s) && DoDispatch(s).Next?
    ensures RoomForAll(DoDispatch(s).state) <==> (Exorcising(s, Dispatch) ==> s.zombies.max <= 16)
  {
    var p, s' := TopLevel(s.runq), DoDispatch(s).state;
    ChosenInv(s, p);
    var s1 := Chosen(s, p);
    ChosenPlaces(s, p);
    assert |s1.threads| == |s.threads|;
    if Exorcising(s, Dispatch) {
      ExorcisedInv(s1);
      assert s1.cur.value in s'.threads.Keys;
      SubsetSize(s'.threads.Keys, s1.threads.Keys);
      SubsetSize({s1.cur.value}, s'.threads.Keys);
    }
  }

  /** No step of the run takes the room for everybody away. */
  ghost predicate KeepsRoom(s: State, steps: seq<Step>)
    requires Inv(s)
    decreases |steps|
  {
    steps == [] || !Apply(s, steps[0]).Next? ||
    (StepInv(s, steps[0]);
     && (Forking(s, steps[0]) ==> s.numthreads + 1 + |s.zombies.items| <= GrownMax(s.zombies.max, s.numthreads + 1))
     && (Exorcising(s, steps[0]) ==> s.zombies.max <= 16)
     && KeepsRoom(Apply(s, steps[0]).state, steps[1..]))
  }

  /** So along every such run nobody who exits needs memory. */
  lemma {:induction false} ExitsSafe(s: State, steps: seq<Step>)
    requires Inv(s) && RoomForAll(s) && Exec(s, steps).Next? && KeepsRoom(s, steps)
    ensures var s' := Exec(s, steps).state; RoomForAll(s') && Shape(s') && (s'.cur.Some? ==> DoExit(s', false).Next?)
    decreases |steps|
  {
    if steps == [] {
      if s.cur.Some? {
        RoomForExit(s);
      }
    } else {
      StepInv(s, steps[0]);
      RoomStep(s, steps[0]);
      ExitsSafe(Apply(s, steps[0]).state, steps[1..]);
    }
  }

  ghost function Exits(steps: seq<Step>): nat {
    if steps == [] then 0 else (if steps[0].Exit? then 1 else 0) + Exits(steps[1..])
  }

  /** A run without memory for exits, in which nothing makes room for zombies or destroys them. */
  ghost predicate OnlyDying(s: State, steps: seq<Step>)
    requires Inv(s)
    decreases |steps|
  {
    steps == [] || !Apply(s, steps[0]).Next? ||
    (StepInv(s, steps[0]);
     !steps[0].Fork? && steps[0] != Exit(true) && !Exorcising(s, steps[0]) && OnlyDying(Apply(s, steps[0]).state, steps[1..]))
  }

  /** On every such run the exit that panics is the one after as many as there was room for, no other. */
  lemma {:induction false} ExitPanicsExactly(s: State, steps: seq<Step>)
    requires Inv(s) && Exec(s, steps).Next? && OnlyDying(s, steps)
    ensures var s' := Exec(s, steps).state;
            && Shape(s') && |s'.zombies.items| == |s.zombies.items| + Exits(steps) <= s'.zombies.max == s.zombies.max
            && (s'.cur.Some? ==> (Apply(s', Exit(false)) == Panic <==> |s.zombies.items| + Exits(steps) == s.zombies.max))
    decreases |steps|
  {
    if steps == [] {
      NumThreadsCounts(s);
    } else {
      var s1 := ExecHead(s, steps);
      DyingStep(s, steps[0]);
      ExitPanicsExactly(s1, steps[1..]);
    }
  }

  lemma DyingStep(s: State, step: Step)
    requires Inv(s) && Apply(s, step).Next? && !step.Fork? && step != Exit(true) && !Exorcising(s, step)
    ensures var z := Apply(s, step).state.zombies;
            z.max == s.zombies.max && |z.items| == |s.zombies.items| + if step.Exit? then 1 else 0
  {
  }

  /** Everybody who is ready has never run. */
  ghost predicate AllNew(s: State)
    requires Shape(s)
  {
    forall p, t :: 0 <= p < NUM_PRIORITIES && t in s.runq[p] ==> s.threads[t].unstarted
  }

  /** k exits without memory, one after the other. */
  ghost function DieOut(k: nat): seq<Step>
    requires k > 0
  {
    if k == 1 then [Exit(false)] else [Exit(false), Dispatch] + DieOut(k - 1)
  }

  /** If all who are ready are new, k of them and the current thread can exit in turn exactly if there is room for k more zombies. */
  lemma {:induction false} DieOutExactly(s: State, k: nat)
    requires Inv(s) && s.cur.Some? && AllNew(s) && 0 < k <= 1 + Lengths(s.runq)
    ensures Exec(s, DieOut(k)).Next? <==> |s.zombies.items| + k <= s.zombies.max
    ensures !Exec(s, DieOut(k)).Blocked?
    decreases k
  {
    ExitOrPanic(s, DieOut(k));
    if DoExit(s, false).Next? {
      if k == 1 {
        assert DieOut(k) == [Exit(false)] + [];
        ExecStep(s, Exit(false), []);
      } else {
        var s1, s2 := DieOne(s);
        DieTwo(s, s1, s2, DieOut(k - 1));
        DieOutExactly(s2, k - 1);
      }
    }
  }

  lemma ExitOrPanic(s: State, steps: seq<Step>)
    requires Inv(s) && s.cur.Some? && steps != [] && steps[0] == Exit(false)
    ensures DoExit(s, false).Next? <==> |s.zombies.items| + 1 <= s.zombies.max
    ensures !DoExit(s, false).Next? ==> Exec(s, steps) == Panic
  {
    NumThreadsCounts(s);
  }

  lemma DieTwo(s: State, s1: State, s2: State, rest: seq<Step>)
    requires Inv(s) && Apply(s, Exit(false)) == Next(s1) && Shape(s1) && Apply(s1, Dispatch) == Next(s2)
    ensures Inv(s2) && Exec(s, [Exit(false), Dispatch] + rest) == Exec(s2, rest)
  {
    assert [Exit(false), Dispatch] + rest == [Exit(false)] + ([Dispatch] + rest);
    ExecTo(s, Exit(false), [Dispatch] + rest, s1);
    ExecTo(s1, Dispatch, rest, s2);
  }

  lemma ExecTo(s1: State, step: Step, rest: seq<Step>, s2: State)
    requires Inv(s1) && Apply(s1, step) == Next(s2)
    ensures Inv(s2) && Exec(s1, [step] + rest) == Exec(s2, rest)
  {
    ExecStep(s1, step, rest);
  }

  /** The current thread exits and a new one runs. */
  lemma DieOne(s: State) returns (s1: State, s2: State)
    requires Inv(s) && s.cur.Some? && AllNew(s) && DoExit(s, false).Next? && Lengths(s.runq) > 0
    ensures Apply(s, Exit(false)) == Next(s1) && Shape(s1) && Apply(s1, Dispatch) == Next(s2)
    ensures Inv(s2) && s2.cur.Some? && AllNew(s2) && Lengths(s2.runq) == Lengths(s.runq) - 1
    ensures |s2.zombies.items| == |s.zombies.items| + 1 && s2.zombies.max == s.zombies.max
  {
    s1 := Died(s);
    s2 := NewRuns(s1);
  }

  lemma Died(s: State) returns (s1: State)
    requires Inv(s) && s.cur.Some? && AllNew(s) && DoExit(s, false).Next?
    ensures Apply(s, Exit(false)) == Next(s1) && Inv(s1) && s1.cur.None? && AllNew(s1) && s1.runq == s.runq
    ensures |s1.zombies.items| == |s.zombies.items| + 1 && s1.zombies.max == s.zombies.max
  {
    ExitInv(s, false);
    CurrentNotReady(s);
    s1 := DoExit(s, false).state;
  }

  lemma NewRuns(s: State) returns (s2: State)
    requires Inv(s) && s.cur.None? && AllNew(s) && Lengths(s.runq) > 0
    ensures Apply(s, Dispatch) == Next(s2) && Inv(s2) && s2.cur.Some? && AllNew(s2) && Lengths(s2.runq) == Lengths(s.runq) - 1
    ensures s2.zombies == s.zombies
  {
    var p := TopLevel(s.runq);
    assert s.runq[p][0] in s.runq[p];
    s2 := Chosen(s, p);
    ChosenInv(s, p);
    CurrentNotReady(s2);
    forall i, t | 0 <= i < NUM_PRIORITIES && t in s2.runq[i]
      ensures s2.threads[t].unstarted
    {
      assert t in s.runq[i];
    }
  }

  /** The current thread is on no run queue. */
  lemma CurrentNotReady(s: State)
    requires Inv(s) && s.cur.Some?
    ensures forall p :: 0 <= p < NUM_PRIORITIES ==> s.cur.value !in s.runq[p]
  {
    var t := s.cur.value;
    ExactlyOnePlace(s, t);
    forall p | 0 <= p < NUM_PRIORITIES
      ensures t !in s.runq[p]
    {
      if t in s.runq[p] {
        InRunBag(s.runq, p, t);
        assert false;
      }
    }
  }

  /** So with nobody asleep, everybody can exit without memory exactly if there is room for everybody. */
  lemma EverybodyCanExit(s: State)
    requires Inv(s) && s.cur.Some? && AllNew(s) && s.sleepers.items == []
    ensures s.numthreads > 0
    ensures Exec(s, DieOut(s.numthreads)).Next? <==> RoomForAll(s)
  {
    NumThreadsCounts(s);
    DieOutExactly(s, s.numthreads);
  }
}
