/** array.c, thread.c and scheduler.c as they run: the loops, and the state they update. */
module PtrArrays {
  import opened Arrays

  /** A resizeable array of pointers; a null `v` is an array of length 0. */
  class PtrArray<T(0)> {
    var num: int
    var max: int
    var v: array<T>

    ghost predicate Valid()
      reads this
    {
      0 <= num <= max == v.Length
    }

    ghost function View(): Arr<T>
      requires Valid()
      reads this, v
    {
      Arr(v[..num], max)
    }

    constructor ()
      ensures Valid() && View() == Arr([], 0) && fresh(v)
    {
      num, max := 0, 0;
      v := new T[0];
    }

    /** array_preallocate: always allocates, even when the array is large enough already. */
    method Preallocate(n: int, mem: bool) returns (ok: bool)
      requires Valid()
      modifies this
      ensures Valid() && ok == mem
      ensures View() == if mem then old(View()).(max := GrownMax(old(max), n)) else old(View())
      ensures v == old(v) || fresh(v)
    {
      var newmax := max;
      while n > newmax
        invariant max <= newmax && GrownMax(newmax, n) == GrownMax(max, n)
        decreases n - newmax
      {
        newmax := (newmax + 1) * 2;
      }
      if !mem {
        return false;
      }
      var newv := new T[newmax];
      var i := 0;
      while i < num
        invariant 0 <= i <= num && newv[..i] == v[..i]
        modifies newv
      {
        newv[i] := v[i];
        i := i + 1;
      }
      max := newmax;
      v := newv;
      return true;
    }

    /** array_setsize(a, 0) */
    method Clear()
      requires Valid()
      modifies this
      ensures Valid() && View() == Cleared(old(View()))
      ensures v == old(v) || fresh(v)
    {
      if max > 16 {
        v := new T[0];
        max := 0;
      }
      num := 0;
    }

    /** array_add: needs memory exactly when the array is full. */
    method Add(x: T, mem: bool) returns (ok: bool)
      requires Valid()
      modifies this, v
      ensures Valid() && (ok <==> !NeedsMemory(old(View())) || mem)
      ensures View() == if ok then Added(old(View()), x) else old(View())
      ensures v == old(v) || fresh(v)
    {
      var ix := num;
      if ix + 1 > max {
        ok := Preallocate(ix + 1, mem);
        if !ok {
          return;
        }
      }
      num := ix + 1;
      v[ix] := x;
      return true;
    }

    /** array_remove: the later elements move down. */
    method Remove(index: int)
      requires Valid() && 0 <= index < num
      modifies this, v
      ensures Valid() && max == old(max) && v == old(v)
      ensures View().items == old(View()).items[..index] + old(View()).items[index + 1..]
    {
      var i := index;
      while i + 1 < num
        invariant index <= i < num
        invariant v[..index] == old(v[..index])
        invariant forall j :: index <= j < i ==> v[j] == old(v[j + 1])
        invariant forall j :: i < j < num ==> v[j] == old(v[j])
        modifies v
      {
        v[i] := v[i + 1];
        i := i + 1;
      }
      num := num - 1;
    }
  }
}

/** The run queues of scheduler.c: one ring for each priority. */
module RunQueues {
  import opened Threads
  import opened Queue

  class Levels {
    const ring: seq<Ring<Tid>>
    ghost var Repr: set<object>

    ghost predicate Valid()
      reads this, Repr
    {
      && this in Repr && |ring| == NUM_PRIORITIES
      && (forall i :: 0 <= i < NUM_PRIORITIES ==> ring[i] in Repr && ring[i].data in Repr && ring[i].Valid())
      && (forall i, j :: 0 <= i < j < NUM_PRIORITIES ==> ring[i] != ring[j] && ring[i].data != ring[j].data)
    }

    ghost function Queues(): (qs: seq<seq<Tid>>)
      requires Valid()
      reads this, Repr
      ensures |qs| == NUM_PRIORITIES
    {
      seq(NUM_PRIORITIES, i requires 0 <= i < NUM_PRIORITIES && Valid() reads this, Repr => ring[i].Contents())
    }

    ghost function Slots(): (ns: seq<nat>)
      requires Valid()
      reads this, Repr
      ensures |ns| == NUM_PRIORITIES
    {
      seq(NUM_PRIORITIES, i requires 0 <= i < NUM_PRIORITIES && Valid() reads this, Repr => ring[i].size)
    }

    /** scheduler_bootstrap */
    constructor ()
      ensures Valid() && fresh(Repr)
      ensures forall i :: 0 <= i < NUM_PRIORITIES ==> Queues()[i] == [] && Slots()[i] == RUNQUEUE_SLOTS
    {
      var a := new Ring<Tid>(RUNQUEUE_SLOTS);
      var b := new Ring<Tid>(RUNQUEUE_SLOTS);
      var c := new Ring<Tid>(RUNQUEUE_SLOTS);
      var d := new Ring<Tid>(RUNQUEUE_SLOTS);
      ring := [a, b, c, d];
      Repr := {this, a, b, c, d, a.data, b.data, c.data, d.data};
      new;
      assert ring[0] == a && ring[1] == b && ring[2] == c && ring[3] == d;
      assert a.Contents() == b.Contents() == c.Contents() == d.Contents() == [];
      assert Valid();
    }

    /** q_addtail; `grants` says how many allocations succeed. */
    static method AddTo(r: Ring<Tid>, t: Tid, grants: nat) returns (ok: bool, left: nat)
      requires r.Valid()
      modifies r, r.data
      ensures r.Valid() && (r.data == old(r.data) || fresh(r.data))
      ensures var full := |old(r.Contents())| + 1 >= old(r.size);
              && (ok <==> !full || grants > 0) && left == grants - (if ok && full then 1 else 0)
              && r.Contents() == (if ok then old(r.Contents()) + [t] else old(r.Contents()))
              && r.size == if ok && full then 2 * old(r.size) else old(r.size)
    {
      r.RoomLeft(|r.Contents()|);
      r.Bounded();
      var full := r.Full();
      var err := r.AddTail(t, grants > 0);
      ok, left := err == Ok, if full && grants > 0 then grants - 1 else grants;
    }

    /** q_addtail on one level. */
    method Add(p: nat, t: Tid, grants: nat) returns (ok: bool, left: nat)
      requires Valid() && p < NUM_PRIORITIES
      modifies Repr
      ensures Valid() && fresh(Repr - old(Repr))
      ensures var full := |old(Queues())[p]| + 1 >= old(Slots())[p];
              && (ok <==> !full || grants > 0) && left == grants - (if ok && full then 1 else 0)
              && Queues() == (if ok then old(Queues())[p := old(Queues())[p] + [t]] else old(Queues()))
              && Slots() == if ok && full then old(Slots())[p := 2 * old(Slots())[p]] else old(Slots())
    {
      ok, left := AddTo(ring[p], t, grants);
      Repr := Repr + {ring[p].data};
    }

    /** q_remhead on one level. */
    method RemHead(p: nat) returns (t: Tid)
      requires Valid() && p < NUM_PRIORITIES && Queues()[p] != []
      modifies Repr
      ensures Valid() && Repr == old(Repr) && Slots() == old(Slots())
      ensures t == old(Queues())[p][0] && Queues() == old(Queues())[p := old(Queues())[p][1..]]
    {
      t := ring[p].RemHead();
    }

    method Empty(p: nat) returns (e: bool)
      requires Valid() && p < NUM_PRIORITIES
      ensures e <==> Queues()[p] == []
    {
      e := ring[p].Empty();
    }

    /** scheduler's look at all the queues. */
    method AnyReady() returns (ready: bool)
      requires Valid()
      ensures ready <==> TopLevel(Queues()) >= 0
    {
      ready := false;
      var i := 0;
      while i < NUM_PRIORITIES
        invariant 0 <= i <= NUM_PRIORITIES
        invariant ready <==> exists j :: 0 <= j < i && Queues()[j] != []
      {
        var e := Empty(i);
        if !e {
          ready := true;
        }
        i := i + 1;
      }
    }

    /** scheduler's choice of a level. */
    method Top() returns (p: nat)
      requires Valid() && TopLevel(Queues()) >= 0
      ensures p == TopLevel(Queues())
    {
      p := NUM_PRIORITIES - 1;
      while p > 0
        invariant 0 <= p < NUM_PRIORITIES
        invariant forall j :: p < j < NUM_PRIORITIES ==> Queues()[j] == []
      {
        var e := Empty(p);
        if !e {
          break;
        }
        p := p - 1;
      }
    }

    /** q_preallocate on one level. */
    method PreallocateLevel(p: nat, n: int, grants: nat) returns (ok: bool, left: nat)
      requires Valid() && p < NUM_PRIORITIES
      modifies Repr
      ensures Valid() && fresh(Repr - old(Repr)) && Queues() == old(Queues())
      ensures var short := n > old(Slots())[p];
              && (ok <==> !short || grants > 0) && left == grants - (if short && ok then 1 else 0)
              && Slots() == if short && ok then old(Slots())[p := GrownSlots(old(Slots())[p], n)] else old(Slots())
    {
      left := if n > ring[p].size && grants > 0 then grants - 1 else grants;
      var err := ring[p].Preallocate(n, grants > 0);
      Repr := Repr + {ring[p].data};
      ok := err == Ok;
    }

    /** scheduler_preallocate */
    method Preallocate(n: int, grants: nat) returns (ok: bool, left: nat)
      requires Valid()
      modifies Repr
      ensures Valid() && fresh(Repr - old(Repr)) && Queues() == old(Queues())
      ensures Slots() == Preallocated(old(Slots()), n, 0, grants)
      ensures var short := LevelsShort(old(Slots()), n, 0); (ok <==> short <= grants) && (ok ==> left == grants - short)
    {
      left := grants;
      ghost var end := Preallocated(Slots(), n, 0, grants);
      ghost var short := LevelsShort(Slots(), n, 0);
      var i := 0;
      while i < NUM_PRIORITIES
        invariant 0 <= i <= NUM_PRIORITIES && Valid() && fresh(Repr - old(Repr)) && Queues() == old(Queues())
        invariant Preallocated(Slots(), n, i, left) == end && short - LevelsShort(Slots(), n, i) == grants - left
      {
        PreallocatedStep(Slots(), n, i, left);
        ok, left := PreallocateLevel(i, n, left);
        if !ok {
          return;
        }
        i := i + 1;
      }
      ok := true;
    }
  }
}

module ThreadSystem {
  import opened Prelude
  import opened Arrays
  import opened Threads
  import opened ThreadRuns
  import opened PtrArrays
  import RunQueues

  /** An interrupt that wakes threads up, and how many of the allocations it may need succeed. */
  datatype Irq = Irq(addr: Addr, grants: nat)

  /** The idle loop: interrupts wake threads until one is ready, or there are no more interrupts. */
  ghost function Idle(s: State, irqs: seq<Irq>): (o: Outcome)
    requires Shape(s)
    ensures !o.Blocked? && (o.Next? ==> Shape(o.state))
    decreases |irqs|
  {
    if TopLevel(s.runq) >= 0 || irqs == [] then Next(s)
    else
      var o := DoWakeup(s, irqs[0].addr, irqs[0].grants);
      if o.Panic? then Panic else WakeupShape(s, irqs[0].addr, irqs[0].grants); Idle(o.state, irqs[1..])
  }

  class Kernel {
    var threads: map<Tid, Thread>
    var curthread: Option<Tid>
    const runqueue: RunQueues.Levels
    const sleepers: PtrArray<Tid>
    const zombies: PtrArray<Tid>
    var numthreads: int
    ghost var forked: bool

    ghost var Repr: set<object>

    /** The parts are in order and do not share storage. */
    ghost predicate Wired()
      reads this, Repr
    {
      && {this, runqueue, sleepers, zombies} <= Repr && sleepers.v in Repr && zombies.v in Repr && runqueue.Repr <= Repr
      && runqueue.Valid() && sleepers.Valid() && zombies.Valid()
      && sleepers != zombies && sleepers.v != zombies.v
      && {this, sleepers, zombies, sleepers.v, zombies.v} !! runqueue.Repr
    }

    ghost function View(): State
      requires Wired()
      reads this, Repr
    {
      State(threads, curthread, runqueue.Queues(), runqueue.Slots(), sleepers.View(), zombies.View(), numthreads, forked)
    }

    /** thread_bootstrap and scheduler_bootstrap */
    constructor (boot: Tid)
      ensures Wired() && fresh(Repr) && View() == Boot(boot)
    {
      threads := map[boot := Thread(PRIORITY_NORMAL, None, false, false, false)];
      curthread := Some(boot);
      var rq := new RunQueues.Levels();
      var sl := new PtrArray<Tid>();
      var zo := new PtrArray<Tid>();
      runqueue, sleepers, zombies := rq, sl, zo;
      numthreads, forked := 1, false;
      Repr := {this, sl, zo, sl.v, zo.v} + rq.Repr;
    }

    /** make_runnable: needs memory exactly when the level is full. */
    method MakeRunnable(t: Tid, grants: nat) returns (ok: bool, left: nat)
      requires Wired() && t in threads && threads[t].prio < NUM_PRIORITIES
      modifies this`Repr, runqueue.Repr
      ensures Wired() && fresh(Repr - old(Repr))
      ensures var full := Full(old(View()), threads[t].prio);
              && (ok <==> !full || grants > 0) && left == grants - (if ok && full then 1 else 0)
              && View() == if ok then Enqueue(old(View()), t) else old(View())
    {
      ok, left := runqueue.Add(threads[t].prio, t, grants);
      Repr := Repr + runqueue.Repr;
    }

    method SetThreads(ts: map<Tid, Thread>)
      requires Wired()
      modifies this`threads
      ensures Wired() && View() == old(View()).(threads := ts)
    {
      threads := ts;
    }

    method SetCurrent(c: Option<Tid>)
      requires Wired()
      modifies this`curthread
      ensures Wired() && View() == old(View()).(cur := c)
    {
      curthread := c;
    }

    method SetCount(n: int, ghost forked': bool)
      requires Wired()
      modifies this`numthreads, this`forked
      ensures Wired() && View() == old(View()).(numthreads := n, forked := forked')
    {
      numthreads := n;
      forked := forked';
    }

    method TakeHead(p: nat) returns (t: Tid)
      requires Wired() && p < NUM_PRIORITIES && View().runq[p] != []
      modifies runqueue.Repr
      ensures Wired() && t == old(View()).runq[p][0]
      ensures View() == old(View()).(runq := old(View()).runq[p := old(View()).runq[p][1..]])
    {
      t := runqueue.RemHead(p);
    }

    method AddSleeper(t: Tid, mem: bool) returns (ok: bool)
      requires Wired()
      modifies Repr
      ensures Wired() && fresh(Repr - old(Repr)) && (ok <==> !NeedsMemory(old(View()).sleepers) || mem)
      ensures ok ==> View() == old(View()).(sleepers := Added(old(View()).sleepers, t))
    {
      ok := sleepers.Add(t, mem);
      Repr := Repr + {sleepers.v};
    }

    method AddZombie(t: Tid, mem: bool) returns (ok: bool)
      requires Wired()
      modifies Repr
      ensures Wired() && fresh(Repr - old(Repr)) && (ok <==> !NeedsMemory(old(View()).zombies) || mem)
      ensures ok ==> View() == old(View()).(zombies := Added(old(View()).zombies, t))
    {
      ok := zombies.Add(t, mem);
      Repr := Repr + {zombies.v};
    }

    method ClearZombies()
      requires Wired()
      modifies Repr
      ensures Wired() && fresh(Repr - old(Repr)) && View() == old(View()).(zombies := Cleared(old(View()).zombies))
    {
      zombies.Clear();
      Repr := Repr + {zombies.v};
    }

    method GrowSleepers(n: int, mem: bool) returns (ok: bool)
      requires Wired()
      modifies Repr
      ensures Wired() && fresh(Repr - old(Repr)) && ok == mem
      ensures var a := old(View()).sleepers;
              View() == if mem then old(View()).(sleepers := a.(max := GrownMax(a.max, n))) else old(View())
    {
      ok := sleepers.Preallocate(n, mem);
      Repr := Repr + {sleepers.v};
    }

    method GrowZombies(n: int, mem: bool) returns (ok: bool)
      requires Wired()
      modifies Repr
      ensures Wired() && fresh(Repr - old(Repr)) && ok == mem
      ensures var a := old(View()).zombies;
              View() == if mem then old(View()).(zombies := a.(max := GrownMax(a.max, n))) else old(View())
    {
      ok := zombies.Preallocate(n, mem);
      Repr := Repr + {zombies.v};
    }

    method GrowQueues(n: int, grants: nat) returns (ok: bool, left: nat)
      requires Wired()
      modifies Repr
      ensures Wired() && fresh(Repr - old(Repr))
      ensures View() == old(View()).(slots := Preallocated(old(View()).slots, n, 0, grants))
      ensures var short := LevelsShort(old(View()).slots, n, 0); (ok <==> short <= grants) && (ok ==> left == grants - short)
    {
      ok, left := runqueue.Preallocate(n, grants);
      Repr := Repr + runqueue.Repr;
    }

    /** Sleeper i becomes runnable, if there is memory for it. */
    method WakeOne(i: nat, grants: nat) returns (ok: bool, left: nat)
      requires Wired() && i < |View().sleepers.items|
      requires var t := View().sleepers.items[i]; t in threads && threads[t].prio < NUM_PRIORITIES
      modifies Repr
      ensures Wired() && fresh(Repr - old(Repr))
      ensures var s := old(View()); var t := s.sleepers.items[i];
              var full := Full(s, s.threads[t].prio);
              && (ok <==> !full || grants > 0) && left == grants - (if ok && full then 1 else 0)
              && (ok ==> View() == Enqueue(WithoutSleeper(s, i), t))
    {
      var t := sleepers.v[i];
      sleepers.Remove(i);
      ok, left := MakeRunnable(t, grants);
    }

    /** One look of the scan: a sleeper on addr is removed, any other passed over. */
    method ScanOne(i: nat, addr: Addr, grants: nat) returns (i': nat, ok: bool, left: nat)
      requires Wired() && i < |View().sleepers.items|
      requires var t := View().sleepers.items[i]; t in threads && threads[t].prio < NUM_PRIORITIES
      modifies Repr
      ensures Wired() && fresh(Repr - old(Repr))
      ensures ScanNext(old(View()), i, addr, grants) == if ok then Some((View(), i', left)) else None
    {
      if threads[sleepers.v[i]].sleepaddr == Some(addr) {
        ok, left := WakeOne(i, grants);
        return i, ok, left;
      }
      return i + 1, true, grants;
    }

    /** thread_wakeup: scan the sleepers, removing as it goes; false if making one runnable ran out of memory. */
    method Wakeup(addr: Addr, grants: nat) returns (ok: bool)
      requires Wired() && Shape(View())
      modifies Repr
      ensures Wired() && fresh(Repr - old(Repr))
      ensures DoWakeup(old(View()), addr, grants) == if ok then Next(View()) else Panic
    {
      ScanIsWakeup(View(), addr, grants);
      ghost var end := ScanAll(View(), 0, addr, grants);
      var i: nat, left := 0, grants;
      while i < sleepers.num
        invariant Wired() && fresh(Repr - old(Repr)) && SleepersOk(View())
        invariant i <= sleepers.num && ScanAll(View(), i, addr, left) == end
        decreases sleepers.num - i
      {
        ScanNextOk(View(), i, addr, left);
        i, ok, left := ScanOne(i, addr, left);
        if !ok {
          return;
        }
      }
      ok := true;
    }

    /** scheduler, once some queue is not empty: the first thread of the highest level, demoted. */
    method Scheduler() returns (t: Tid)
      requires Wired() && Shape(View()) && TopLevel(View().runq) >= 0
      modifies Repr
      ensures Wired() && Repr == old(Repr)
      ensures var s, p := old(View()), TopLevel(old(View()).runq);
              t == s.runq[p][0] && t in s.threads && View() == Demoted(s, p)
    {
      DemotedInSteps(View(), TopLevel(View().runq));
      t := TakeTop();
      Demote(t);
    }

    method TakeTop() returns (t: Tid)
      requires Wired() && TopLevel(View().runq) >= 0
      modifies runqueue.Repr
      ensures Wired()
      ensures var s, p := old(View()), TopLevel(old(View()).runq); t == s.runq[p][0] && View() == s.(runq := s.runq[p := s.runq[p][1..]])
    {
      var p := runqueue.Top();
      t := TakeHead(p);
    }

    method Demote(t: Tid)
      requires Wired() && t in threads
      modifies this`threads
      ensures Wired()
      ensures var th := old(threads[t]);
              View() == if th.prio > 0 then old(View()).(threads := old(threads)[t := th.(prio := th.prio - 1)]) else old(View())
    {
      if threads[t].prio > 0 {
        SetThreads(threads[t := threads[t].(prio := threads[t].prio - 1)]);
      }
    }

    /** exorcise's loop: thread_destroy for every zombie. */
    method DestroyZombies()
      requires Wired() && curthread.Some? && CanExorcise(View(), curthread.value)
      modifies this`threads
      ensures Wired()
      ensures var s := old(View()); View() == s.(threads := map t | t in s.threads && t !in s.zombies.items :: s.threads[t])
    {
      ghost var all, dead := threads, View().zombies.items;
      var i := 0;
      while i < zombies.num
        invariant 0 <= i <= zombies.num && Wired() && View() == old(View()).(threads := threads)
        invariant threads == map t | t in all && t !in dead[..i] :: all[t]
      {
        var z := zombies.v[i];
        assert z == dead[i] && z in dead && z != curthread.value;
        if z in threads {
          assert !threads[z].vmspace && !threads[z].cwd;
          SetThreads(threads - {z});
        }
        i := i + 1;
      }
      assert dead[..i] == dead;
    }

    /** exorcise */
    method Exorcise()
      requires Wired() && curthread.Some? && CanExorcise(View(), curthread.value)
      modifies Repr
      ensures Wired() && fresh(Repr - old(Repr)) && View() == Exorcised(old(View()))
    {
      DestroyZombies();
      ClearZombies();
    }

    /** A new thread starts; any other returns from mi_switch, through thread_sleep if it slept. */
    method Resume(t: Tid)
      requires Wired() && t in threads
      modifies this`threads
      ensures Wired()
      ensures var th := old(threads[t]);
              View() == old(View()).(threads := old(threads)[t := th.(unstarted := false,
                                                                  sleepaddr := if th.unstarted then th.sleepaddr else None)])
    {
      if threads[t].unstarted {
        SetThreads(threads[t := threads[t].(unstarted := false)]);
      } else {
        SetThreads(threads[t := threads[t].(sleepaddr := None)]);
      }
    }

    /** scheduler's choice starts to run. */
    method Choose() returns (first: bool)
      requires Wired() && Shape(View()) && TopLevel(View().runq) >= 0
      modifies Repr
      ensures Wired() && Repr == old(Repr)
      ensures var s, p := old(View()), TopLevel(old(View()).runq);
              View() == Chosen(s, p) && s.runq[p][0] in s.threads && first == s.threads[s.runq[p][0]].unstarted
    {
      ChosenInSteps(View(), TopLevel(View().runq));
      var t := Scheduler();
      SetCurrent(Some(t));
      first := threads[t].unstarted;
      Resume(t);
    }

    /** The second half of mi_switch, from the scheduler's choice to the return in that thread. */
    method SwitchIn()
      requires Wired() && Shape(View()) && curthread.None? && TopLevel(View().runq) >= 0 && !DoDispatch(View()).Panic?
      modifies Repr
      ensures Wired() && fresh(Repr - old(Repr)) && Next(View()) == DoDispatch(old(View()))
    {
      var first := Choose();
      if !first {
        Exorcise();
      }
    }

    /** scheduler's idle loop; `irqs` are the wakeups that interrupts bring while it idles. */
    method IdleLoop(irqs: seq<Irq>) returns (ready: bool, ok: bool)
      requires Wired() && Shape(View())
      modifies Repr
      ensures Wired() && fresh(Repr - old(Repr))
      ensures Idle(old(View()), irqs) == if ok then Next(View()) else Panic
      ensures ok ==> (ready <==> TopLevel(View().runq) >= 0)
    {
      ready := runqueue.AnyReady();
      ok := true;
      var rest := irqs;
      ghost var s := View();
      while !ready && rest != []
        invariant Wired() && fresh(Repr - old(Repr)) && View() == s && Shape(s)
        invariant Idle(s, rest) == Idle(old(View()), irqs) && (ready <==> TopLevel(s.runq) >= 0)
        decreases |rest|
      {
        IdleStep(s, rest);
        ready, ok := IdleTurn(rest[0]);
        if !ok {
          return;
        }
        s := View();
        rest := rest[1..];
      }
    }

    /** One turn of the idle loop: an interrupt, then another look at the queues. */
    method IdleTurn(irq: Irq) returns (ready: bool, ok: bool)
      requires Wired() && Shape(View())
      modifies Repr
      ensures Wired() && fresh(Repr - old(Repr)) && (ready <==> TopLevel(View().runq) >= 0)
      ensures DoWakeup(old(View()), irq.addr, irq.grants) == if ok then Next(View()) else Panic
    {
      ok := Wakeup(irq.addr, irq.grants);
      ready := runqueue.AnyReady();
    }

    /** mi_switch after the current thread has been put away. */
    method SwitchAway(irqs: seq<Irq>) returns (fate: Fate)
      requires Wired() && Inv(View()) && curthread.None?
      modifies Repr
      ensures Wired() && fresh(Repr - old(Repr)) && Resumed(old(View()), irqs, fate, View())
    {
      ghost var s := View();
      var ready, ok := IdleLoop(irqs);
      if !ok {
        return Panicked;
      }
      if !ready {
        return Idling;
      }
      IdleThenDispatch(s, irqs);
      SwitchIn();
      return Ran;
    }

    /** mi_switch's first half: onto the run queue. */
    method StashReady(mem: bool) returns (ok: bool)
      requires Wired() && Shape(View()) && curthread.Some?
      modifies Repr
      ensures Wired() && fresh(Repr - old(Repr))
      ensures DoYield(old(View()), mem) == if ok then Next(View()) else Panic
    {
      var done, _ := MakeRunnable(curthread.value, if mem then 1 else 0);
      SetCurrent(None);
      ok := done;
    }

    /** mi_switch's first half: onto sleepers. */
    method StashAsleep(addr: Addr, mem: bool) returns (ok: bool)
      requires Wired() && Shape(View()) && curthread.Some?
      modifies Repr
      ensures Wired() && fresh(Repr - old(Repr))
      ensures DoSleep(old(View()), addr, mem) == if ok then Next(View()) else Panic
    {
      var t := curthread.value;
      SetThreads(threads[t := threads[t].(sleepaddr := Some(addr))]);
      SetCurrent(None);
      ok := AddSleeper(t, mem);
    }

    /** thread_exit's cleaning up, and mi_switch's first half: onto zombies. */
    method StashDead(mem: bool) returns (ok: bool)
      requires Wired() && Shape(View()) && curthread.Some? && numthreads > 0
      modifies Repr
      ensures Wired() && fresh(Repr - old(Repr))
      ensures DoExit(old(View()), mem) == if ok then Next(View()) else Panic
    {
      var t := curthread.value;
      SetThreads(threads[t := threads[t].(vmspace := false, cwd := false)]);
      SetCount(numthreads - 1, forked);
      SetCurrent(None);
      ok := AddZombie(t, mem);
    }

    /** thread_yield; in the idle loop, with no current thread, it does nothing. */
    method Yield(mem: bool, irqs: seq<Irq>) returns (fate: Fate)
      requires Wired() && Inv(View())
      modifies Repr
      ensures Wired() && EndsAs(old(View()), DoYield(old(View()), mem), irqs, fate, View())
    {
      if curthread.None? {
        return Returned;
      }
      ghost var s := View();
      var ok := StashReady(mem);
      if !ok {
        return Panicked;
      }
      YieldInv(s, mem);
      fate := SwitchAway(irqs);
    }

    /** thread_sleep; once a fork has succeeded it never fails for want of memory. */
    method Sleep(addr: Addr, mem: bool, irqs: seq<Irq>) returns (fate: Fate)
      requires Wired() && Inv(View()) && curthread.Some?
      modifies Repr
      ensures Wired() && EndsAs(old(View()), DoSleep(old(View()), addr, mem), irqs, fate, View())
      ensures old(forked) ==> old(DoSleep(View(), addr, mem)).Next?
    {
      ghost var s := View();
      if forked {
        SleepNeverAllocates(s, addr);
      }
      var ok := StashAsleep(addr, mem);
      if !ok {
        return Panicked;
      }
      SleepInv(s, addr, mem);
      fate := SwitchAway(irqs);
    }

    /** thread_exit */
    method Exit(mem: bool, irqs: seq<Irq>) returns (fate: Fate)
      requires Wired() && Inv(View()) && curthread.Some?
      modifies Repr
      ensures Wired() && EndsAs(old(View()), DoExit(old(View()), mem), irqs, fate, View())
    {
      ghost var s := View();
      assert numthreads > 0 by {
        NumThreadsCounts(s);
      }
      var ok := StashDead(mem);
      if !ok {
        return Panicked;
      }
      ExitInv(s, mem);
      fate := SwitchAway(irqs);
    }

    /** thread_fork's preallocations. */
    method MakeRoom(grants: nat) returns (ok: bool, left: nat)
      requires Wired()
      modifies Repr
      ensures Wired() && fresh(Repr - old(Repr))
      ensures View() == if grants == 0 then old(View()) else ForkRoom(old(View()), grants)
      ensures var short := LevelsShort(old(View()).slots, numthreads + 1, 0);
              (ok <==> grants >= 2 + short) && (ok ==> left == grants - 2 - short)
    {
      left := 0;
      ok := GrowSleepers(numthreads + 1, grants >= 1);
      if ok {
        ok, left := MakeMoreRoom(numthreads + 1, grants - 1);
      }
    }

    method MakeMoreRoom(n: int, grants: nat) returns (ok: bool, left: nat)
      requires Wired()
      modifies Repr
      ensures Wired() && fresh(Repr - old(Repr))
      ensures var s := old(View());
              View() == if grants == 0 then s else Roomier(s, s.sleepers.max, GrownMax(s.zombies.max, n), Preallocated(s.slots, n, 0, grants - 1))
      ensures var short := LevelsShort(old(View()).slots, n, 0);
              (ok <==> grants >= 1 + short) && (ok ==> left == grants - 1 - short)
    {
      left := 0;
      ok := GrowZombies(n, grants >= 1);
      if ok {
        ok, left := GrowQueues(n, grants - 1);
      }
    }

    /** thread_fork, from the preallocations on. */
    method ForkThread(t: Tid, vm: bool, grants: nat) returns (ok: bool)
      requires Wired() && Shape(View()) && curthread.Some? && t !in threads
      modifies Repr
      ensures Wired() && fresh(Repr - old(Repr))
      ensures Next(View()) == DoFork(old(View()), t, vm, grants)
      ensures ok <==> t in threads
    {
      ghost var s := View();
      ForkState(s, t, vm, grants);
      var left;
      ok, left := MakeRoom(grants);
      if ok {
        ForkLeft(s, grants, left);
        ok := Bear(t, vm, left);
      }
    }

    /** thread_fork's new thread becomes runnable, or is freed again. */
    method Bear(t: Tid, vm: bool, grants: nat) returns (ok: bool)
      requires Wired() && curthread.Some? && curthread.value in threads && t !in threads
      modifies Repr
      ensures Wired() && fresh(Repr - old(Repr)) && (ok <==> !Full(old(View()), PRIORITY_NORMAL) || grants > 0)
      ensures View() == if ok then Born(old(View()), t, vm) else old(View())
    {
      BornInSteps(View(), t, vm);
      var me, before := threads[curthread.value], threads;
      SetThreads(threads[t := Thread(PRIORITY_NORMAL, None, me.vmspace && vm, me.cwd, true)]);
      var done, _ := MakeRunnable(t, grants);
      ok := done;
      if ok {
        SetCount(numthreads + 1, true);
      } else {
        SetThreads(before);
      }
    }
  }

  /** What the preallocations leave is enough for the new thread exactly if the fork had all it needs. */
  lemma ForkLeft(s: State, grants: nat, left: nat)
    requires Levels(s) && grants >= 2 && left == grants - 2 - LevelsShort(s.slots, s.numthreads + 1, 0)
    ensures Levels(ForkRoom(s, grants)) && (grants >= ForkNeeds(s) <==> !Full(ForkRoom(s, grants), PRIORITY_NORMAL) || left > 0)
  {
    EnoughIsEnough(s.slots, s.numthreads + 1, 0, grants - 2);
  }

  /** Memory beyond what preallocation needs changes nothing. */
  lemma {:induction false} EnoughIsEnough(slots: seq<nat>, n: int, i: nat, grants: nat)
    requires grants >= LevelsShort(slots, n, i)
    ensures Preallocated(slots, n, i, grants) == Preallocated(slots, n, i, LevelsShort(slots, n, i))
    decreases |slots| - i
  {
    if i < |slots| {
      if n <= slots[i] {
        EnoughIsEnough(slots, n, i + 1, grants);
      } else {
        var slots' := slots[i := GrownSlots(slots[i], n)];
        ShortFrame(slots, slots', n, i + 1);
        EnoughIsEnough(slots', n, i + 1, grants - 1);
      }
    }
  }

  /** The idle loop and the dispatch that follow once the current thread has been put away. */
  ghost predicate Resumed(s: State, irqs: seq<Irq>, fate: Fate, s': State)
    requires Shape(s)
  {
    match fate
    case Panicked => Idle(s, irqs).Panic?
    case Idling => Idle(s, irqs) == Next(s') && |s'.runq| == NUM_PRIORITIES && TopLevel(s'.runq) < 0
    case Ran => Idle(s, irqs).Next? && DoDispatch(Idle(s, irqs).state) == Next(s')
    case Returned => false
  }

  /** However a call ends, short of a panic, the invariant holds. */
  lemma EndsWell(s: State, put: Outcome, irqs: seq<Irq>, fate: Fate, s': State)
    requires Inv(s) && (put.Next? ==> Inv(put.state)) && EndsAs(s, put, irqs, fate, s') && fate != Panicked
    ensures Inv(s')
  {
    if s.cur.Some? {
      IdleInv(put.state, irqs);
      DispatchInv(Idle(put.state, irqs).state);
    }
  }

  lemma {:induction false} IdleInv(s: State, irqs: seq<Irq>)
    requires Inv(s) && Idle(s, irqs).Next?
    ensures Inv(Idle(s, irqs).state) && Idle(s, irqs).state.cur == s.cur
    decreases |irqs|
  {
    if TopLevel(s.runq) < 0 && irqs != [] {
      var s1 := IdleOnce(s, irqs);
      IdleInv(s1, irqs[1..]);
    }
  }

  lemma IdleOnce(s: State, irqs: seq<Irq>) returns (s1: State)
    requires Inv(s) && Idle(s, irqs).Next? && TopLevel(s.runq) < 0 && irqs != []
    ensures Inv(s1) && s1.cur == s.cur && Idle(s, irqs) == Idle(s1, irqs[1..])
  {
    WakeupInv(s, irqs[0].addr, irqs[0].grants);
    s1 := DoWakeup(s, irqs[0].addr, irqs[0].grants).state;
  }

  /** After the idle loop the dispatch cannot panic. */
  lemma IdleThenDispatch(s: State, irqs: seq<Irq>)
    requires Inv(s) && s.cur.None? && Idle(s, irqs).Next?
    ensures var s1 := Idle(s, irqs).state; s1.cur.None? && !DoDispatch(s1).Panic?
  {
    IdleInv(s, irqs);
    DispatchInv(Idle(s, irqs).state);
  }

  lemma HeadKnown(s: State, p: int)
    requires Shape(s) && 0 <= p < NUM_PRIORITIES && s.runq[p] != []
    ensures s.runq[p][0] in s.threads && s.threads[s.runq[p][0]].prio == p
  {
    assert s.runq[p][0] in s.runq[p];
  }

  /** scheduler's own part in the choice of the next thread. */
  ghost function Demoted(s: State, p: int): State
    requires |s.runq| == NUM_PRIORITIES && 0 <= p < NUM_PRIORITIES && s.runq[p] != [] && s.runq[p][0] in s.threads
  {
    var t := s.runq[p][0];
    s.(runq := s.runq[p := s.runq[p][1..]], threads := s.threads[t := s.threads[t].(prio := if p > 0 then p - 1 else 0)])
  }

  lemma DemotedInSteps(s: State, p: int)
    requires Shape(s) && 0 <= p < NUM_PRIORITIES && s.runq[p] != []
    ensures var t, s1 := s.runq[p][0], s.(runq := s.runq[p := s.runq[p][1..]]);
            && t in s.threads && s.threads[t].prio == p
            && Demoted(s, p) == if p > 0 then s1.(threads := s.threads[t := s.threads[t].(prio := p - 1)]) else s1
  {
    HeadKnown(s, p);
    var t := s.runq[p][0];
    assert p == 0 ==> s.threads[t := s.threads[t].(prio := 0)] == s.threads;
  }

  lemma ChosenInSteps(s: State, p: int)
    requires Shape(s) && 0 <= p < NUM_PRIORITIES && s.runq[p] != []
    ensures s.runq[p][0] in s.threads
    ensures var t := s.runq[p][0];
            var s1 := Demoted(s, p).(cur := Some(t));
            var th := s1.threads[t];
            && th.unstarted == s.threads[t].unstarted
            && Chosen(s, p) == s1.(threads := s1.threads[t := th.(unstarted := false, sleepaddr := if th.unstarted then th.sleepaddr else None)])
  {
    HeadKnown(s, p);
  }

  lemma BornInSteps(s: State, t: Tid, vm: bool)
    requires Levels(s) && s.cur.Some? && s.cur.value in s.threads && t !in s.threads
    ensures var me := s.threads[s.cur.value];
            var s1 := s.(threads := s.threads[t := Thread(PRIORITY_NORMAL, None, me.vmspace && vm, me.cwd, true)]);
            && s1.(threads := s.threads) == s && Full(s1, PRIORITY_NORMAL) == Full(s, PRIORITY_NORMAL)
            && Born(s, t, vm) == Enqueue(s1, t).(numthreads := s.numthreads + 1, forked := true)
  {
  }

  /** The call's own step, then interrupts while idle, then the dispatch of the next thread. */
  ghost predicate EndsAs(s: State, put: Outcome, irqs: seq<Irq>, fate: Fate, s': State) {
    match put
    case Panic => fate == Panicked
    case Blocked => false
    case Next(s1) => if s.cur.None? then fate == Returned && s' == s else Shape(s1) && Resumed(s1, irqs, fate, s')
  }

  /** How a call that gives up the processor ends: another thread runs, nobody can, nothing was to be done, or a panic. */
  datatype Fate = Ran | Idling | Returned | Panicked

  lemma IdleStep(s: State, irqs: seq<Irq>)
    requires Shape(s) && TopLevel(s.runq) < 0 && irqs != []
    ensures var o := DoWakeup(s, irqs[0].addr, irqs[0].grants);
            if o.Next? then Shape(o.state) && Idle(s, irqs) == Idle(o.state, irqs[1..]) else Idle(s, irqs) == Panic
  {
    if DoWakeup(s, irqs[0].addr, irqs[0].grants).Next? {
      WakeupShape(s, irqs[0].addr, irqs[0].grants);
    }
  }

  /** One look of the scan: the state, the place to look next and the allocations left; None if one was refused. */
  ghost function ScanNext(s: State, i: nat, addr: Addr, grants: nat): Option<(State, nat, nat)>
    requires Levels(s) && i < |s.sleepers.items|
    requires var t := s.sleepers.items[i]; t in s.threads && s.threads[t].prio < NUM_PRIORITIES
  {
    var t := s.sleepers.items[i];
    if s.threads[t].sleepaddr != Some(addr) then Some((s, i + 1, grants))
    else if !Full(s, s.threads[t].prio) then Some((Enqueue(WithoutSleeper(s, i), t), i, grants))
    else if grants > 0 then Some((Enqueue(WithoutSleeper(s, i), t), i, grants - 1))
    else None
  }

  ghost predicate SleepersOk(s: State) {
    Levels(s) && forall t :: t in s.sleepers.items ==> t in s.threads && s.threads[t].prio < NUM_PRIORITIES
  }

  lemma ScanNextOk(s: State, i: nat, addr: Addr, grants: nat)
    requires SleepersOk(s) && i < |s.sleepers.items|
    ensures match ScanNext(s, i, addr, grants)
            case Some((s', i', left)) => SleepersOk(s') && i' <= |s'.sleepers.items| && |s'.sleepers.items| - i' < |s.sleepers.items| - i
            case None => true
  {
  }

  /** The whole scan from position i on. */
  ghost function ScanAll(s: State, i: nat, addr: Addr, grants: nat): Outcome
    requires SleepersOk(s) && i <= |s.sleepers.items|
    decreases |s.sleepers.items| - i
  {
    if i == |s.sleepers.items| then Next(s)
    else
      ScanNextOk(s, i, addr, grants);
      match ScanNext(s, i, addr, grants)
      case Some((s', i', left)) => ScanAll(s', i', addr, left)
      case None => Panic
  }

  /** Scanning while removing wakes exactly the threads asleep on addr, in order. */
  lemma ScanIsWakeup(s: State, addr: Addr, grants: nat)
    requires Shape(s)
    ensures SleepersOk(s) && ScanAll(s, 0, addr, grants) == DoWakeup(s, addr, grants)
  {
    ScanBegins(s, addr, grants);
    ScanAllEnds(s, 0, addr, grants, s, grants);
  }

  lemma {:induction false} ScanAllEnds(s: State, i: nat, addr: Addr, grants: nat, s0: State, grants0: nat)
    requires Shape(s0) && Scanning(s, i, addr, grants, s0, grants0)
    ensures SleepersOk(s) && ScanAll(s, i, addr, grants) == DoWakeup(s0, addr, grants0)
    decreases |s.sleepers.items| - i
  {
    if i == |s.sleepers.items| {
      ScanEnds(s, i, addr, grants, s0, grants0);
    } else {
      ScanNextKeeps(s, i, addr, grants, s0, grants0);
      match ScanNext(s, i, addr, grants)
      case Some((s', i', left)) => ScanAllEnds(s', i', addr, left, s0, grants0);
      case None =>
    }
  }

  lemma ScanNextKeeps(s: State, i: nat, addr: Addr, grants: nat, s0: State, grants0: nat)
    requires Scanning(s, i, addr, grants, s0, grants0) && i < |s.sleepers.items|
    ensures match ScanNext(s, i, addr, grants)
            case Some((s', i', left)) =>
              Scanning(s', i', addr, left, s0, grants0) && |s'.sleepers.items| - i' < |s.sleepers.items| - i
            case None => grants0 < Growths(s0, Asleep(s0.threads, s0.sleepers.items, addr, true))
  {
    if s.threads[s.sleepers.items[i]].sleepaddr == Some(addr) {
      ScanTaken(s, i, addr, grants, s0, grants0);
    } else {
      ScanPassed(s, i, addr, grants, s0, grants0);
    }
  }

  ghost function WithoutSleeper(s: State, i: nat): State
    requires i < |s.sleepers.items|
  {
    s.(sleepers := s.sleepers.(items := s.sleepers.items[..i] + s.sleepers.items[i + 1..]))
  }

  /** The scan for addr that began in s0 with grants0 to spend has left the first i sleepers of s alone. */
  ghost predicate Scanning(s: State, i: nat, addr: Addr, grants: nat, s0: State, grants0: nat) {
    && Levels(s) && Levels(s0) && i <= |s.sleepers.items| && s == s0.(runq := s.runq, slots := s.slots, sleepers := s.sleepers)
    && s.sleepers.max == s0.sleepers.max
    && (forall t :: t in s0.sleepers.items ==> t in s0.threads && s0.threads[t].prio < NUM_PRIORITIES)
    && (forall t :: t in s.sleepers.items ==> t in s0.threads && s0.threads[t].prio < NUM_PRIORITIES)
    && s.sleepers.items[..i] + Asleep(s0.threads, s.sleepers.items[i..], addr, false) == Asleep(s0.threads, s0.sleepers.items, addr, false)
    && var up, up0 := Asleep(s0.threads, s.sleepers.items[i..], addr, true), Asleep(s0.threads, s0.sleepers.items, addr, true);
       && EnqueueAll(s0.(runq := s.runq, slots := s.slots), up) == EnqueueAll(s0, up0)
       && grants0 - grants == Growths(s0, up0) - Growths(s0.(runq := s.runq, slots := s.slots), up)
  }

  lemma ScanBegins(s: State, addr: Addr, grants: nat)
    requires Shape(s)
    ensures Scanning(s, 0, addr, grants, s, grants)
  {
    assert s.sleepers.items[0..] == s.sleepers.items;
  }

  lemma ScanEnds(s: State, i: nat, addr: Addr, grants: nat, s0: State, grants0: nat)
    requires Shape(s0) && Scanning(s, i, addr, grants, s0, grants0) && i == |s.sleepers.items|
    ensures DoWakeup(s0, addr, grants0) == Next(s)
  {
    var up, rest := Asleep(s0.threads, s0.sleepers.items, addr, true), Asleep(s0.threads, s0.sleepers.items, addr, false);
    assert s.sleepers.items[i..] == [] && s.sleepers.items[..i] + [] == s.sleepers.items;
    EnqueueAllIgnoresSleepers(s0, up, rest);
  }

  lemma ScanPassed(s: State, i: nat, addr: Addr, grants: nat, s0: State, grants0: nat)
    requires Scanning(s, i, addr, grants, s0, grants0) && i < |s.sleepers.items|
    requires s.threads[s.sleepers.items[i]].sleepaddr != Some(addr)
    ensures Scanning(s, i + 1, addr, grants, s0, grants0)
  {
    ScanStep(s0.threads, s.sleepers.items, i, addr);
  }

  lemma ScanTaken(s: State, i: nat, addr: Addr, grants: nat, s0: State, grants0: nat)
    requires Scanning(s, i, addr, grants, s0, grants0) && i < |s.sleepers.items|
    requires s.threads[s.sleepers.items[i]].sleepaddr == Some(addr)
    ensures var t := s.sleepers.items[i]; var full := Full(s, s.threads[t].prio);
            if full && grants == 0 then grants0 < Growths(s0, Asleep(s0.threads, s0.sleepers.items, addr, true))
            else Scanning(Enqueue(WithoutSleeper(s, i), t), i, addr, grants - (if full then 1 else 0), s0, grants0)
  {
    ScanStep(s0.threads, s.sleepers.items, i, addr);
  }

  /** One turn of the scan: the thread at position i is taken out or stepped over. */
  lemma ScanStep(threads: map<Tid, Thread>, ts: seq<Tid>, i: nat, addr: Addr)
    requires i < |ts| && forall t :: t in ts ==> t in threads
    ensures var ts' := ts[..i] + ts[i + 1..];
            threads[ts[i]].sleepaddr == Some(addr) ==>
              && (forall t :: t in ts' ==> t in threads)
              && Asleep(threads, ts[i..], addr, true) == [ts[i]] + Asleep(threads, ts'[i..], addr, true)
              && ts'[..i] + Asleep(threads, ts'[i..], addr, false) == ts[..i] + Asleep(threads, ts[i..], addr, false)
    ensures threads[ts[i]].sleepaddr != Some(addr) ==>
              && Asleep(threads, ts[i..], addr, true) == Asleep(threads, ts[i + 1..], addr, true)
              && ts[..i + 1] + Asleep(threads, ts[i + 1..], addr, false) == ts[..i] + Asleep(threads, ts[i..], addr, false)
  {
    var ts' := ts[..i] + ts[i + 1..];
    assert ts'[i..] == ts[i + 1..] && ts'[..i] == ts[..i];
    assert ts[i..][1..] == ts[i + 1..];
    assert ts[..i + 1] + Asleep(threads, ts[i + 1..], addr, false) == ts[..i] + ([ts[i]] + Asleep(threads, ts[i + 1..], addr, false));
  }
}
