/** What becomes of a thread that has to wait in P: it sleeps on its semaphore until the next V, which makes it ready. */
module SemaphoreWaits {
  import opened Prelude
  import opened Threads
  import opened Semaphores

  /** t sleeps on semaphore id. */
  ghost predicate Waits(st: State, t: Tid, id: nat) {
    t in st.sleepers.items && t in st.threads && st.threads[t].sleepaddr == Some(Sem(id))
  }

  /** t is on the run queue of its priority, and nowhere else. */
  ghost predicate IsReady(st: State, t: Tid)
    requires Shape(st)
  {
    t in st.threads && t in st.runq[st.threads[t].prio] && t !in st.sleepers.items && st.cur != Some(t)
  }

  /** A P either takes a unit and goes on, or puts its thread to sleep on the semaphore. */
  lemma PTakesOrWaits(y: Sys, id: nat, mem: bool)
    requires Good(y) && DoP(y, id, mem).Ok?
    ensures y.st.cur.Some? && id in y.sems
    ensures var y' := DoP(y, id, mem).sys; var sem := y.sems[id];
            if sem.count == 0 then Waits(y'.st, y.st.cur.value, id) && y'.st.cur.None? && y'.sems == y.sems
            else y'.st == y.st && y'.sems == y.sems[id := sem.(count := sem.count - 1, ps := sem.ps + 1)]
  {
  }

  /** op wakes the sleepers on semaphore id. */
  predicate Wakes(op: Op, id: nat) {
    (op.V? && op.id == id) || (op.Kernel? && op.step.Wakeup? && op.step.addr == Sem(id))
  }

  /** Whoever waits goes on waiting through everything that is not a V of the semaphore. */
  lemma WaitKept(y: Sys, op: Op, t: Tid, id: nat)
    requires Good(y) && DoOp(y, op).Ok? && Waits(y.st, t, id) && !Wakes(op, id)
    ensures Waits(DoOp(y, op).sys.st, t, id)
  {
    if y.st.cur.Some? {
      CurrentNotAsleep(y.st, y.st.cur.value);
    }
    match op
    case Create(_, _) =>
    case P(_, _) =>
    case V(i, grants) => OtherWakeup(y.st, Sem(i), grants, t);
    case Kernel(step) => StepKeepsWaiting(y.st, step, t, id);
  }

  lemma StepKeepsWaiting(s: State, step: Step, t: Tid, id: nat)
    requires Inv(s) && Apply(s, step).Next? && Waits(s, t, id)
    requires step.Wakeup? ==> step.addr != Sem(id)
    ensures Waits(Apply(s, step).state, t, id)
  {
    if s.cur.Some? {
      CurrentNotAsleep(s, s.cur.value);
    }
    match step
    case Fork(u, vm, grants) => ForkSleepers(s, u, vm, grants);
    case Yield(_) =>
    case Sleep(_, _) =>
    case Exit(_) =>
    case Wakeup(addr, grants) => OtherWakeup(s, addr, grants, t);
    case Dispatch => DispatchWaiting(s, t);
  }

  lemma DispatchWaiting(s: State, t: Tid)
    requires Inv(s) && DoDispatch(s).Next? && t in s.sleepers.items
    ensures var s' := DoDispatch(s).state; t in s'.sleepers.items && t in s'.threads && s'.threads[t].sleepaddr == s.threads[t].sleepaddr
  {
    DispatchInv(s);
    DispatchSleepers(s);
  }

  lemma OtherWakeup(s: State, addr: Addr, grants: nat, t: Tid)
    requires Inv(s) && DoWakeup(s, addr, grants).Next? && t in s.sleepers.items && s.threads[t].sleepaddr != Some(addr)
    ensures var s' := DoWakeup(s, addr, grants).state; t in s'.sleepers.items && s'.threads == s.threads
  {
    WakeupSleepers(s, addr, grants);
  }

  /** A V makes everybody who waits ready. */
  lemma VWakes(y: Sys, id: nat, grants: nat, t: Tid)
    requires Good(y) && DoV(y, id, grants).Ok? && Waits(y.st, t, id)
    ensures var st := DoV(y, id, grants).sys.st;
            Shape(st) && IsReady(st, t) && st.threads == y.st.threads
  {
    WakeupReadies(y.st, Sem(id), grants, t);
  }

  lemma WakeupReadies(s: State, addr: Addr, grants: nat, t: Tid)
    requires Inv(s) && DoWakeup(s, addr, grants).Next? && t in s.sleepers.items && s.threads[t].sleepaddr == Some(addr)
    ensures var s' := DoWakeup(s, addr, grants).state; Shape(s') && IsReady(s', t) && s'.threads == s.threads
  {
    WakeupInv(s, addr, grants);
    WakeupSleepers(s, addr, grants);
    if s.cur.Some? {
      CurrentNotAsleep(s, s.cur.value);
    }
    var up := Asleep(s.threads, s.sleepers.items, addr, true);
    EnqueuedReady(s.(sleepers := s.sleepers.(items := Asleep(s.threads, s.sleepers.items, addr, false))), up, t);
  }

  lemma {:induction false} EnqueuedReady(s: State, ts: seq<Tid>, t: Tid)
    requires Levels(s) && t in s.threads && forall u :: u in ts ==> u in s.threads && s.threads[u].prio < NUM_PRIORITIES
    requires s.threads[t].prio < NUM_PRIORITIES && (t in ts || t in s.runq[s.threads[t].prio])
    ensures t in EnqueueAll(s, ts).runq[s.threads[t].prio]
    decreases |ts|
  {
    if ts != [] {
      EnqueuedReady(Enqueue(s, ts[0]), ts[1..], t);
    }
  }

  ghost predicate NoneWakes(ops: seq<Op>, id: nat) {
    forall k :: 0 <= k < |ops| ==> !Wakes(ops[k], id)
  }

  /** So on every run without one: whoever waits, waits. */
  lemma {:induction false} StaysAsleep(y: Sys, ops: seq<Op>, t: Tid, id: nat)
    requires Good(y) && Exec(y, ops).Ok? && Waits(y.st, t, id) && NoneWakes(ops, id)
    ensures Waits(Exec(y, ops).sys.st, t, id)
    decreases |ops|
  {
    if ops != [] {
      OpKeeps(y, ops[0]);
      WaitKept(y, ops[0], t, id);
      StaysAsleep(DoOp(y, ops[0]).sys, ops[1..], t, id);
    }
  }

  lemma {:induction false} ExecSnoc(y: Sys, ops: seq<Op>, op: Op)
    requires Good(y) && Exec(y, ops + [op]).Ok?
    ensures Exec(y, ops).Ok? && Good(Exec(y, ops).sys) && Exec(y, ops + [op]) == DoOp(Exec(y, ops).sys, op)
    decreases |ops|
  {
    var all := ops + [op];
    var y1 := ExecHead(y, all);
    if ops == [] {
      assert all[1..] == [];
    } else {
      assert all[1..] == ops[1..] + [op];
      ExecSnoc(y1, ops[1..], op);
    }
  }

  lemma ExecHead(y: Sys, ops: seq<Op>) returns (y1: Sys)
    requires Good(y) && ops != [] && Exec(y, ops).Ok?
    ensures DoOp(y, ops[0]) == Ok(y1) && Good(y1) && Exec(y, ops) == Exec(y1, ops[1..])
  {
    OpKeeps(y, ops[0]);
    y1 := DoOp(y, ops[0]).sys;
  }

  /** And the first V wakes it up: it is ready then, at its own priority. */
  lemma FirstVWakes(y: Sys, ops: seq<Op>, grants: nat, t: Tid, id: nat)
    requires Good(y) && Exec(y, ops + [V(id, grants)]).Ok? && Waits(y.st, t, id) && NoneWakes(ops, id)
    ensures var st := Exec(y, ops + [V(id, grants)]).sys.st; Shape(st) && IsReady(st, t)
  {
    ExecSnoc(y, ops, V(id, grants));
    StaysAsleep(y, ops, t, id);
    VWakes(Exec(y, ops).sys, id, grants, t);
  }

  /** A P without a unit to take: its thread sleeps through any run without a V, and is ready after the first one. */
  lemma WaitsForV(y: Sys, mem: bool, ops: seq<Op>, grants: nat, id: nat)
    requires Good(y) && id in y.sems && y.sems[id].count == 0 && DoP(y, id, mem).Ok? && NoneWakes(ops, id)
    ensures y.st.cur.Some? && Good(DoP(y, id, mem).sys)
    ensures var y1, t := DoP(y, id, mem).sys, y.st.cur.value;
            && (Exec(y1, ops).Ok? ==> Waits(Exec(y1, ops).sys.st, t, id))
            && (Exec(y1, ops + [V(id, grants)]).Ok? ==>
                  var st := Exec(y1, ops + [V(id, grants)]).sys.st; Shape(st) && IsReady(st, t))
  {
    PKeeps(y, id, mem);
    PTakesOrWaits(y, id, mem);
    var y1, t := DoP(y, id, mem).sys, y.st.cur.value;
    if Exec(y1, ops).Ok? {
      StaysAsleep(y1, ops, t, id);
    }
    if Exec(y1, ops + [V(id, grants)]).Ok? {
      FirstVWakes(y1, ops, grants, t, id);
    }
  }
}
