/**
 Semaphores (os161-1.11/kern/thread/synch.c) on top of the thread system.  P's loop is cut
 where it calls thread_sleep: a step of P either takes a unit or puts the caller to sleep,
 and a thread that wakes up runs the step again.
 */
module Semaphores {
  import opened Prelude
  import opened Arrays
  import opened Threads
  import opened ThreadRuns

  const INT_MAX := 0x7fff_ffff

  /** The count, and a record of the initial count and of the completed Ps and Vs. */
  datatype Semaphore = Semaphore(count: int, initial: int, ps: nat, vs: nat)

  datatype Sys = Sys(st: State, sems: map<nat, Semaphore>)

  datatype Op =
    | Create(id: nat, initial: int)
    | P(id: nat, mem: bool)
    | V(id: nat, grants: nat)
    | Kernel(step: Step)

  datatype Result = Ok(sys: Sys) | Failed | NotEnabled

  function Lift(y: Sys, o: Outcome): Result {
    match o
    case Next(st) => Ok(y.(st := st))
    case Panic => Failed
    case Blocked => NotEnabled
  }

  function DoP(y: Sys, id: nat, mem: bool): Result
    requires Shape(y.st)
  {
    if id !in y.sems || y.st.cur.None? then NotEnabled
    else
      var sem := y.sems[id];
      if sem.count == 0 then Lift(y, DoSleep(y.st, Sem(id), mem))
      else if sem.count < 0 then Failed
      else Ok(y.(sems := y.sems[id := sem.(count := sem.count - 1, ps := sem.ps + 1)]))
  }

  /** V, from a thread or from an interrupt. */
  function DoV(y: Sys, id: nat, grants: nat): Result
    requires Shape(y.st)
  {
    if id !in y.sems then NotEnabled
    else
      var sem := y.sems[id];
      if sem.count >= INT_MAX then Failed
      else Lift(y.(sems := y.sems[id := sem.(count := sem.count + 1, vs := sem.vs + 1)]), DoWakeup(y.st, Sem(id), grants))
  }

  /** Nobody but P sleeps on a semaphore. */
  function DoOp(y: Sys, op: Op): Result
    requires Shape(y.st)
  {
    match op
    case Create(id, initial) =>
      if id in y.sems then NotEnabled
      else if !(0 <= initial <= INT_MAX) then Failed
      else Ok(y.(sems := y.sems[id := Semaphore(initial, initial, 0, 0)]))
    case P(id, mem) => DoP(y, id, mem)
    case V(id, grants) => DoV(y, id, grants)
    case Kernel(step) => if step.Sleep? && step.addr.Sem? then NotEnabled else Lift(y, Apply(y.st, step))
  }

  // ---------------------------------------------------------------- the invariant

  /** Units are conserved: what was there and what was added is what is left and what was taken. */
  ghost predicate Conserved(y: Sys) {
    forall id :: id in y.sems ==>
      var sem := y.sems[id];
      0 <= sem.count <= INT_MAX && 0 <= sem.initial && sem.initial + sem.vs == sem.count + sem.ps
  }

  /** No lost wakeups: a thread sleeps on a semaphore only while its count is zero. */
  ghost predicate NoLostWakeup(st: State, sems: map<nat, Semaphore>)
    requires Shape(st)
  {
    forall t :: t in st.sleepers.items && SleepsOnSem(st.threads, t) ==>
      var id := st.threads[t].sleepaddr.value.id;
      id in sems && sems[id].count == 0
  }

  ghost predicate SleepsOnSem(threads: map<Tid, Thread>, t: Tid)
    requires t in threads
  {
    threads[t].sleepaddr.Some? && threads[t].sleepaddr.value.Sem?
  }

  ghost predicate Good(y: Sys) {
    Inv(y.st) && Conserved(y) && NoLostWakeup(y.st, y.sems)
  }

  /** Steps that add no sleeper and re-address none cannot lose a wakeup. */
  lemma FewerSleepers(a: State, b: State, sems: map<nat, Semaphore>)
    requires Shape(a) && Shape(b) && NoLostWakeup(a, sems)
    requires forall t :: t in b.sleepers.items ==> t in a.sleepers.items && b.threads[t].sleepaddr == a.threads[t].sleepaddr
    ensures NoLostWakeup(b, sems)
  {
  }

  lemma SleepKeeps(y: Sys, addr: Addr, mem: bool)
    requires Good(y) && DoSleep(y.st, addr, mem).Next?
    requires addr.Sem? ==> addr.id in y.sems && y.sems[addr.id].count == 0
    ensures Good(y.(st := DoSleep(y.st, addr, mem).state))
  {
    SleepInv(y.st, addr, mem);
    SleepLoses(y.st, y.sems, addr, mem);
  }

  lemma SleepLoses(a: State, sems: map<nat, Semaphore>, addr: Addr, mem: bool)
    requires Shape(a) && NoLostWakeup(a, sems) && DoSleep(a, addr, mem).Next? && Shape(DoSleep(a, addr, mem).state)
    requires addr.Sem? ==> addr.id in sems && sems[addr.id].count == 0
    ensures NoLostWakeup(DoSleep(a, addr, mem).state, sems)
  {
    var b, me := DoSleep(a, addr, mem).state, a.cur.value;
    forall t | t in b.sleepers.items && SleepsOnSem(b.threads, t)
      ensures b.threads[t].sleepaddr.value.id in sems && sems[b.threads[t].sleepaddr.value.id].count == 0
    {
      assert t != me ==> t in a.sleepers.items;
    }
  }

  lemma DispatchSleepers(a: State)
    requires Inv(a) && DoDispatch(a).Next?
    ensures var b := DoDispatch(a).state;
            b.sleepers == a.sleepers && forall t :: t in a.sleepers.items && t in b.threads ==> b.threads[t].sleepaddr == a.threads[t].sleepaddr
  {
    var q := TopLevel(a.runq);
    forall t | t in a.sleepers.items
      ensures t != a.runq[q][0]
    {
      SleeperNotReady(a, q, t);
    }
  }

  /** The current thread is not asleep. */
  lemma CurrentNotAsleep(a: State, t: Tid)
    requires Inv(a) && a.cur == Some(t)
    ensures t !in a.sleepers.items
  {
    assert t in a.sleepers.items ==> multiset(a.sleepers.items)[t] >= 1;
    ExactlyOnePlace(a, t);
  }

  lemma SleepersKept(a: State, step: Step)
    requires Inv(a) && Apply(a, step).Next? && !step.Sleep? && Shape(Apply(a, step).state)
    ensures var b := Apply(a, step).state;
            forall t :: t in b.sleepers.items ==> t in a.sleepers.items && b.threads[t].sleepaddr == a.threads[t].sleepaddr
  {
    match step
    case Dispatch => DispatchSleepers(a);
    case Exit(_) => CurrentNotAsleep(a, a.cur.value);
    case Fork(t, vm, grants) => ForkSleepers(a, t, vm, grants);
    case Yield(_) =>
    case Wakeup(addr, grants) => WakeupSleepers(a, addr, grants);
  }

  lemma ForkSleepers(a: State, t: Tid, vm: bool, grants: nat)
    requires Inv(a) && DoFork(a, t, vm, grants).Next?
    ensures var b := DoFork(a, t, vm, grants).state;
            b.sleepers.items == a.sleepers.items && forall u :: u in a.threads ==> u in b.threads && b.threads[u] == a.threads[u]
  {
    ForkState(a, t, vm, grants);
  }

  lemma WakeupSleepers(a: State, addr: Addr, grants: nat)
    requires Inv(a) && DoWakeup(a, addr, grants).Next?
    ensures var b := DoWakeup(a, addr, grants).state;
            b.threads == a.threads && forall t :: t in b.sleepers.items ==> t in a.sleepers.items
  {
  }

  lemma KernelKeeps(y: Sys, step: Step)
    requires Good(y) && Apply(y.st, step).Next? && !(step.Sleep? && step.addr.Sem?)
    ensures Good(y.(st := Apply(y.st, step).state))
  {
    StepInv(y.st, step);
    if step.Sleep? {
      SleepKeeps(y, step.addr, step.mem);
    } else {
      SleepersKept(y.st, step);
      FewerSleepers(y.st, Apply(y.st, step).state, y.sems);
    }
  }

  lemma VKeeps(y: Sys, id: nat, grants: nat)
    requires Good(y) && DoV(y, id, grants).Ok?
    ensures Good(DoV(y, id, grants).sys)
  {
    WakeupInv(y.st, Sem(id), grants);
    VLoses(y.st, y.sems, id, grants, DoV(y, id, grants).sys.sems[id]);
  }

  /** After a V nobody is left asleep on the semaphore, so its count may be positive. */
  lemma VLoses(a: State, sems: map<nat, Semaphore>, id: nat, grants: nat, sem: Semaphore)
    requires Shape(a) && NoLostWakeup(a, sems) && DoWakeup(a, Sem(id), grants).Next? && Shape(DoWakeup(a, Sem(id), grants).state)
    ensures var b := DoWakeup(a, Sem(id), grants).state;
            forall t :: t in b.sleepers.items ==> b.threads[t].sleepaddr != Some(Sem(id))
    ensures NoLostWakeup(DoWakeup(a, Sem(id), grants).state, sems[id := sem])
  {
  }

  lemma PKeeps(y: Sys, id: nat, mem: bool)
    requires Good(y) && DoP(y, id, mem).Ok?
    ensures Good(DoP(y, id, mem).sys)
  {
    if y.sems[id].count == 0 {
      SleepKeeps(y, Sem(id), mem);
    }
  }

  lemma CreateKeeps(y: Sys, id: nat, initial: nat)
    requires Good(y) && id !in y.sems && initial <= INT_MAX
    ensures Good(y.(sems := y.sems[id := Semaphore(initial, initial, 0, 0)]))
  {
    CreateLoses(y.st, y.sems, id, Semaphore(initial, initial, 0, 0));
  }

  lemma CreateLoses(a: State, sems: map<nat, Semaphore>, id: nat, sem: Semaphore)
    requires Shape(a) && NoLostWakeup(a, sems) && id !in sems
    ensures NoLostWakeup(a, sems[id := sem])
  {
  }

  lemma OpKeeps(y: Sys, op: Op)
    requires Good(y) && DoOp(y, op).Ok?
    ensures Good(DoOp(y, op).sys)
  {
    match op
    case Create(id, initial) => CreateKeeps(y, id, initial);
    case P(id, mem) => PKeeps(y, id, mem);
    case V(id, grants) => VKeeps(y, id, grants);
    case Kernel(step) => KernelKeeps(y, step);
  }

  ghost function Exec(y: Sys, ops: seq<Op>): Result
    requires Good(y)
    decreases |ops|
  {
    if ops == [] then Ok(y)
    else
      match DoOp(y, ops[0])
      case Ok(y1) => OpKeeps(y, ops[0]); Exec(y1, ops[1..])
      case r => r
  }

  /** Over every interleaving of threads and interrupts: conservation and no lost wakeups. */
  lemma {:induction false} EveryRun(y: Sys, ops: seq<Op>)
    requires Good(y) && Exec(y, ops).Ok?
    ensures Good(Exec(y, ops).sys)
    decreases |ops|
  {
    if ops != [] {
      OpKeeps(y, ops[0]);
      EveryRun(DoOp(y, ops[0]).sys, ops[1..]);
    }
  }

  /** The machine just booted: one thread and no semaphores. */
  function BootSys(t: Tid): (y: Sys)
    ensures Good(y)
  {
    Sys(BootState(t), map[])
  }

  /** The operations of one kind on one semaphore, as a run performs them: from boot they are all the record counts. */
  ghost function Count(y: Sys, ops: seq<Op>, id: nat, p: bool): nat
    requires Good(y) && Exec(y, ops).Ok?
    decreases |ops|
  {
    if ops == [] then 0
    else
      OpKeeps(y, ops[0]);
      (if Completes(y, ops[0], id, p) then 1 else 0) + Count(DoOp(y, ops[0]).sys, ops[1..], id, p)
  }

  /** op is a P (or V) of semaphore id that goes through. */
  predicate Completes(y: Sys, op: Op, id: nat, p: bool) {
    if p then op.P? && op.id == id && id in y.sems && y.sems[id].count > 0 else op.V? && op.id == id && id in y.sems
  }

  function PsOf(y: Sys, id: nat): nat { if id in y.sems then y.sems[id].ps else 0 }

  function VsOf(y: Sys, id: nat): nat { if id in y.sems then y.sems[id].vs else 0 }

  lemma {:induction false} RecordCounts(y: Sys, ops: seq<Op>, id: nat)
    requires Good(y) && Exec(y, ops).Ok?
    ensures PsOf(Exec(y, ops).sys, id) == PsOf(y, id) + Count(y, ops, id, true)
    ensures VsOf(Exec(y, ops).sys, id) == VsOf(y, id) + Count(y, ops, id, false)
    decreases |ops|
  {
    if ops != [] {
      OpKeeps(y, ops[0]);
      RecordStep(y, ops[0], id);
      RecordCounts(DoOp(y, ops[0]).sys, ops[1..], id);
    }
  }

  lemma RecordStep(y: Sys, op: Op, id: nat)
    requires Shape(y.st) && DoOp(y, op).Ok?
    ensures PsOf(DoOp(y, op).sys, id) == PsOf(y, id) + if Completes(y, op, id, true) then 1 else 0
    ensures VsOf(DoOp(y, op).sys, id) == VsOf(y, id) + if Completes(y, op, id, false) then 1 else 0
  {
  }

  /**
   On every run from boot, a semaphore's count is its initial count plus the Vs less the Ps that
   have gone through; so never more than `initial` Ps are ahead of the Vs, and with 1 it is a mutex.
   */
  lemma UnitsBounded(t: Tid, ops: seq<Op>, id: nat)
    requires Exec(BootSys(t), ops).Ok? && id in Exec(BootSys(t), ops).sys.sems
    ensures var sem, ps, vs := Exec(BootSys(t), ops).sys.sems[id], Count(BootSys(t), ops, id, true), Count(BootSys(t), ops, id, false);
            sem.count == sem.initial + vs - ps && ps <= sem.initial + vs
  {
    RecordCounts(BootSys(t), ops, id);
    EveryRun(BootSys(t), ops);
  }

  /**
   P's and V's own assertions never fail: P fails only if sleeping does, V only on overflow or if
   making the sleepers runnable takes more memory than there is. After a fork neither P nor a V by a thread needs any.
   */
  lemma FailureIsExternal(y: Sys, id: nat, mem: bool, grants: nat)
    requires Good(y) && id in y.sems
    ensures DoP(y, id, mem).Failed? <==> y.st.cur.Some? && y.sems[id].count == 0 && NeedsMemory(y.st.sleepers) && !mem
    ensures DoV(y, id, grants).Failed? <==> y.sems[id].count == INT_MAX || grants < DoublingsTo(y.st.slots, Woken(y.st, Sem(id)))
    ensures y.st.forked && y.st.cur.Some? ==>
              !DoP(y, id, mem).Failed? && (DoV(y, id, grants).Failed? <==> y.sems[id].count == INT_MAX)
  {
    PanicsOnlyForMemory(y.st, Sleep(Sem(id), mem));
    PanicsOnlyForMemory(y.st, Wakeup(Sem(id), grants));
    if y.st.forked && y.st.cur.Some? {
      SleepNeverAllocates(y.st, Sem(id));
      WakeupByThread(y.st, Sem(id));
    }
  }
}

/** The semaphore structure of synch.c as P and V update it, over the running kernel. */
module SemaphoreObjects {
  import opened Threads
  import opened ThreadSystem
  import S = Semaphores

  class SemObject {
    const id: nat
    var count: int
    ghost var initial: int
    ghost var ps: nat
    ghost var vs: nat

    ghost function Record(): S.Semaphore
      reads this
    {
      S.Semaphore(count, initial, ps, vs)
    }

    /** sem_create, for a count that passes its assertion. */
    constructor (id: nat, initialCount: int)
      requires 0 <= initialCount <= S.INT_MAX
      ensures this.id == id && Record() == S.Semaphore(initialCount, initialCount, 0, 0)
    {
      this.id, count := id, initialCount;
      initial, ps, vs := initialCount, 0, 0;
    }

    /**
     A turn of P's loop: either a unit is taken and P returns, or the caller is put to sleep and
     will turn again when it next runs. False: thread_sleep panicked for want of memory.
     */
    method TurnOfP(k: Kernel, mem: bool, ghost sems: map<nat, S.Semaphore>) returns (ok: bool, done: bool)
      requires k.Wired() && this !in k.Repr && Shape(k.View()) && k.curthread.Some?
      requires 0 <= count && id in sems && sems[id] == Record()
      modifies this`count, this`ps, k.Repr
      ensures k.Wired() && fresh(k.Repr - old(k.Repr))
      ensures S.DoP(S.Sys(old(k.View()), sems), id, mem)
              == if ok then S.Ok(S.Sys(k.View(), sems[id := Record()])) else S.Failed
      ensures done <==> old(count) > 0
    {
      if count == 0 {
        ok := k.StashAsleep(Sem(id), mem);
        assert sems[id := Record()] == sems;
        return ok, false;
      }
      assert count > 0;
      count := count - 1;
      ps := ps + 1;
      return true, true;
    }

    method Release(k: Kernel, grants: nat) returns (ok: bool)
      requires k.Wired() && this !in k.Repr && Shape(k.View()) && 0 <= count
      modifies this`count, this`vs, k.Repr
      ensures k.Wired() && fresh(k.Repr - old(k.Repr))
      ensures Record() == old(Record()).(count := old(count) + 1, vs := old(vs) + 1)
      ensures DoWakeup(old(k.View()), Sem(id), grants) == if ok then Next(k.View()) else Panic
    {
      count := count + 1;
      vs := vs + 1;
      assert count > 0;
      ok := k.Wakeup(Sem(id), grants);
    }

    /** V. False: the count overflowed, or making a thread runnable panicked for want of memory. */
    method V(k: Kernel, grants: nat, ghost sems: map<nat, S.Semaphore>) returns (ok: bool)
      requires k.Wired() && this !in k.Repr && Shape(k.View())
      requires 0 <= count <= S.INT_MAX && id in sems && sems[id] == Record()
      modifies this`count, this`vs, k.Repr
      ensures k.Wired() && fresh(k.Repr - old(k.Repr))
      ensures S.DoV(S.Sys(old(k.View()), sems), id, grants)
              == if ok then S.Ok(S.Sys(k.View(), sems[id := Record()])) else S.Failed
    {
      if count == S.INT_MAX {
        return false;
      }
      ok := Release(k, grants);
    }
  }
}
