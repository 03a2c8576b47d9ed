/**
 The ring buffer of os161-1.11/kern/lib/queue.c.  A ring of `size` slots holds at most
 size - 1 pointers; adding to a full ring grows it by calling q_grow, which refills the
 new storage by calling q_addtail again.
 */
module Queue {
  datatype Error = Ok | ENOMEM

  /** The slots from `r` up to but not including `w`, going round. */
  ghost function Slots<T>(data: seq<T>, r: int, w: int): seq<T>
    requires 0 <= r < |data| && 0 <= w < |data|
  {
    if r <= w then data[r..w] else data[r..] + data[..w]
  }

  /** One step round a ring of n slots. */
  function Next(i: int, n: int): int {
    if i + 1 == n then 0 else i + 1
  }

  lemma NextIsMod(i: int, n: int)
    requires 0 <= i < n
    ensures (i + 1) % n == Next(i, n)
  {
  }

  lemma SlotsCount<T>(data: seq<T>, r: int, w: int)
    requires 0 <= r < |data| && 0 <= w < |data|
    ensures |Slots(data, r, w)| < |data|
    ensures |Slots(data, r, w)| == |data| - 1 <==> Next(w, |data|) == r
    ensures |Slots(data, r, w)| == 0 <==> r == w
  {
  }

  lemma SlotsExtend<T>(data: seq<T>, r: int, w: int, x: T)
    requires 0 <= r < |data| && 0 <= w < |data| && Next(w, |data|) != r
    ensures Slots(data[w := x], r, Next(w, |data|)) == Slots(data, r, w) + [x]
  {
  }

  lemma SlotsShrink<T>(data: seq<T>, r: int, w: int)
    requires 0 <= r < |data| && 0 <= w < |data| && r != w
    ensures Slots(data, r, w) == [data[r]] + Slots(data, Next(r, |data|), w)
  {
  }

  /** The size q_grow settles on: the first doubling that reaches the target. */
  function Doubled(size: int, target: int): (n: int)
    requires 0 < size
    ensures size <= n && target <= n && (target > size ==> n < 2 * target)
    decreases target - size
  {
    if size >= target then size else Doubled(2 * size, target)
  }

  class Ring<T(0)> {
    var size: int
    var nextwrite: int
    var nextread: int
    var data: array<T>

    ghost predicate Valid()
      reads this
    {
      0 < size == data.Length && 0 <= nextwrite < size && 0 <= nextread < size
    }

    /** The queued pointers, oldest first. */
    ghost function Contents(): seq<T>
      requires Valid()
      reads this, data
    {
      Slots(data[..], nextread, nextwrite)
    }

    predicate Full()
      requires Valid()
      reads this
    {
      (nextwrite + 1) % size == nextread
    }

    constructor (n: int)
      requires 0 < n
      ensures Valid() && Contents() == [] && size == n && fresh(data)
    {
      size, nextwrite, nextread := n, 0, 0;
      data := new T[n];
    }

    method Empty() returns (e: bool)
      requires Valid()
      ensures e <==> Contents() == []
    {
      e := nextwrite == nextread;
    }

    lemma RoomLeft(n: int)
      requires Valid() && |Contents()| <= n
      ensures Full() <==> |Contents()| == size - 1
      ensures n < size - 1 ==> !Full()
    {
      SlotsCount(data[..], nextread, nextwrite);
      NextIsMod(nextwrite, size);
    }

    lemma Bounded()
      requires Valid()
      ensures |Contents()| < size
    {
      SlotsCount(data[..], nextread, nextwrite);
    }

    /** q_grow's doubling loop. */
    static method GrownSize(size: int, target: int) returns (nsize: int)
      requires 0 < size
      ensures nsize == Doubled(size, target)
    {
      nsize := size;
      while nsize < target
        invariant 0 < size <= nsize && Doubled(nsize, target) == Doubled(size, target)
        decreases target - nsize
      {
        nsize := nsize * 2;
        assert nsize > 0;
      }
    }

    /** q_grow's copying loop: no call of q_addtail in it finds the new ring full. */
    method Refill(olddata: array<T>, onr: int, onw: int)
      requires Valid() && olddata != data && nextread == nextwrite == 0 && olddata.Length < size
      requires 0 <= onr < olddata.Length && 0 <= onw < olddata.Length
      modifies this, data
      ensures Valid() && data == old(data) && size == old(size) && !Full()
      ensures Contents() == Slots(olddata[..], onr, onw)
      decreases 1
    {
      var osize := olddata.Length;
      ghost var old_, todo := olddata[..], Slots(olddata[..], onr, onw);
      SlotsCount(old_, onr, onw);
      var i := onr;
      while i != onw
        invariant Valid() && size == old(size) && data == old(data) && 0 <= i < osize
        invariant olddata[..] == old_
        invariant Contents() + Slots(old_, i, onw) == todo
        decreases |Slots(old_, i, onw)|
      {
        SlotsShrink(old_, i, onw);
        NextIsMod(i, osize);
        RoomLeft(|todo|);
        ghost var done, rest := Contents(), Slots(old_, Next(i, osize), onw);
        assert done + ([old_[i]] + rest) == (done + [old_[i]]) + rest;
        var result := AddTail(olddata[i], false);
        assert result == Ok;
        i := (i + 1) % osize;
      }
      RoomLeft(|todo|);
      SlotsCount(old_, onw, onw);
    }

    /** q_grow.  `mem` says whether kmalloc finds the storage. */
    method Grow(target: int, mem: bool) returns (err: Error)
      requires Valid() && target > size
      modifies this, data
      ensures Valid() && Contents() == old(Contents())
      ensures err == (if mem then Ok else ENOMEM)
      ensures !mem ==> data == old(data) && size == old(size) && nextread == old(nextread) && nextwrite == old(nextwrite)
      ensures mem ==> fresh(data) && size == Doubled(old(size), target) && !Full()
      decreases 2
    {
      var olddata, onr, onw := data, nextread, nextwrite;
      var nsize := GrownSize(size, target);
      if !mem {
        return ENOMEM;
      }
      size := nsize;
      data := new T[nsize];
      nextread, nextwrite := 0, 0;
      Refill(olddata, onr, onw);
      return Ok;
    }

    /** q_addtail: grows exactly when the ring is full, and fails only if that growth does. */
    method AddTail(x: T, mem: bool) returns (err: Error)
      requires Valid()
      modifies this, data
      ensures Valid()
      ensures err == (if old(Full()) && !mem then ENOMEM else Ok)
      ensures Contents() == if err == Ok then old(Contents()) + [x] else old(Contents())
      ensures !(old(Full()) && mem) ==> data == old(data) && size == old(size)
      ensures old(Full()) && mem ==> fresh(data) && size == 2 * old(size)
      decreases if Full() then 3 else 0
    {
      var nextnext := (nextwrite + 1) % size;
      if nextnext == nextread {
        var result := Grow(size + 1, mem);
        if result != Ok {
          return result;
        }
        nextnext := (nextwrite + 1) % size;
      }
      NextIsMod(nextwrite, size);
      SlotsExtend(data[..], nextread, nextwrite, x);
      data[nextwrite] := x;
      nextwrite := nextnext;
      return Ok;
    }

    /** q_preallocate: make the ring at least n slots, which is room for n - 1 pointers. */
    method Preallocate(n: int, mem: bool) returns (err: Error)
      requires Valid()
      modifies this, data
      ensures Valid() && View() == Apply(old(View()), Prealloc(n, mem)).view
      ensures err == (if n > old(size) && !mem then ENOMEM else Ok)
      ensures data == old(data) || fresh(data)
    {
      err := Ok;
      if n > size {
        err := Grow(n, mem);
      }
    }

    /** q_remhead, which insists that the queue is not empty. */
    method RemHead() returns (x: T)
      requires Valid() && Contents() != []
      modifies this
      ensures Valid() && data == old(data) && size == old(size)
      ensures x == old(Contents())[0] && Contents() == old(Contents())[1..]
    {
      SlotsShrink(data[..], nextread, nextwrite);
      NextIsMod(nextread, size);
      x := data[nextread];
      nextread := (nextread + 1) % size;
    }

    ghost function View(): View<T>
      requires Valid()
      reads this, data
    {
      FifoView(Contents(), size)
    }

    /** One call, whichever it is, does to the ring what Apply does to the abstract queue. */
    method Perform(op: Op<T>) returns (out: seq<T>, panicked: bool)
      requires Valid()
      modifies this, data
      ensures Valid() && (data == old(data) || fresh(data))
      ensures Outcome(View(), out, panicked) == Apply(old(View()), op)
    {
      out, panicked := [], false;
      match op {
        case Add(x, mem) =>
          RoomLeft(|Contents()|);
          var _ := AddTail(x, mem);
        case Prealloc(n, mem) =>
          var _ := Preallocate(n, mem);
        case Remove =>
          panicked := Empty();
          if !panicked {
            var x := RemHead();
            out := [x];
          }
      }
    }

    /** Any script of calls takes the ring where it takes the abstract queue, up to a panic. */
    method Run(script: seq<Op<T>>) returns (out: seq<T>, panicked: bool)
      requires Valid()
      modifies this, data
      ensures Valid()
      ensures Outcome(View(), out, panicked) == Replay(old(View()), script)
    {
      out, panicked := [], false;
      var k := 0;
      while k < |script| && !panicked
        invariant 0 <= k <= |script| && Valid() && (data == old(data) || fresh(data))
        invariant Replay(old(View()), script) ==
                  if panicked then Outcome(View(), out, true) else Prefixed(out, Replay(View(), script[k..]))
        decreases |script| - k, !panicked
      {
        assert script[k..] == [script[k]] + script[k + 1..];
        var more: seq<T>;
        more, panicked := Perform(script[k]);
        PrefixedTwice(out, more, Replay(View(), script[k + 1..]));
        out := out + more;
        k := k + 1;
      }
    }
  }

  /** What the ring promises its callers: a FIFO sequence and a number of slots. */
  datatype View<T> = FifoView(fifo: seq<T>, slots: int)

  datatype Op<T> = Add(x: T, mem: bool) | Remove | Prealloc(n: int, mem: bool)

  datatype Outcome<T> = Outcome(view: View<T>, out: seq<T>, panicked: bool)

  ghost function Apply<T>(v: View<T>, op: Op<T>): Outcome<T>
    requires 0 < v.slots
  {
    match op
    case Add(x, mem) =>
      if |v.fifo| < v.slots - 1 then Outcome(v.(fifo := v.fifo + [x]), [], false)
      else if mem then Outcome(FifoView(v.fifo + [x], 2 * v.slots), [], false)
      else Outcome(v, [], false)
    case Remove =>
      if v.fifo == [] then Outcome(v, [], true)
      else Outcome(v.(fifo := v.fifo[1..]), [v.fifo[0]], false)
    case Prealloc(n, mem) =>
      Outcome(if n > v.slots && mem then v.(slots := Doubled(v.slots, n)) else v, [], false)
  }

  ghost function Prefixed<T>(out: seq<T>, o: Outcome<T>): Outcome<T> {
    o.(out := out + o.out)
  }

  lemma PrefixedTwice<T>(a: seq<T>, b: seq<T>, o: Outcome<T>)
    ensures Prefixed(a, Prefixed(b, o)) == Prefixed(a + b, o)
  {
    assert a + (b + o.out) == (a + b) + o.out;
  }

  ghost function Replay<T>(v: View<T>, script: seq<Op<T>>): Outcome<T>
    requires 0 < v.slots
    decreases |script|
  {
    if script == [] then Outcome(v, [], false)
    else
      var o := Apply(v, script[0]);
      if o.panicked then o else Prefixed(o.out, Replay(o.view, script[1..]))
  }

  /** The pointers a script hands over successfully, in order. */
  ghost function Accepted<T>(v: View<T>, script: seq<Op<T>>): seq<T>
    requires 0 < v.slots
    decreases |script|
  {
    if script == [] || Apply(v, script[0]).panicked then []
    else
      var op := script[0];
      (if op.Add? && (|v.fifo| < v.slots - 1 || op.mem) then [op.x] else []) + Accepted(Apply(v, op).view, script[1..])
  }

  lemma ApplyInOrder<T>(v: View<T>, op: Op<T>, a: seq<T>)
    requires 0 < v.slots && !Apply(v, op).panicked
    ensures var o := Apply(v, op);
            v.fifo + ((if op.Add? && (|v.fifo| < v.slots - 1 || op.mem) then [op.x] else []) + a) == o.out + (o.view.fifo + a)
  {
    match op {
      case Add(x, mem) =>
        assert (v.fifo + [x]) + a == v.fifo + ([x] + a);
        assert v.fifo + ([] + a) == v.fifo + a;
      case Remove =>
        assert v.fifo == [v.fifo[0]] + v.fifo[1..];
        assert [v.fifo[0]] + (v.fifo[1..] + a) == v.fifo + a;
      case Prealloc(_, _) =>
    }
  }

  /** First in, first out: what was queued or accepted is what came out, then what is left. */
  lemma {:induction false} FirstInFirstOut<T>(v: View<T>, script: seq<Op<T>>)
    requires 0 < v.slots
    ensures var o := Replay(v, script); v.fifo + Accepted(v, script) == o.out + o.view.fifo
    decreases |script|
  {
    if script != [] && !Apply(v, script[0]).panicked {
      var o := Apply(v, script[0]);
      FirstInFirstOut(o.view, script[1..]);
      var r := Replay(o.view, script[1..]);
      var a := Accepted(o.view, script[1..]);
      assert o.out + (r.out + r.view.fifo) == (o.out + r.out) + r.view.fifo;
      ApplyInOrder(v, script[0], a);
    }
  }

  ghost function AddAll<T>(xs: seq<T>): seq<Op<T>> {
    seq(|xs|, i requires 0 <= i < |xs| => Add(xs[i], false))
  }

  /** How far preallocation carries: without memory, n more pointers fit iff one slot stays empty. */
  lemma {:induction false} FitsWithoutMemory<T>(v: View<T>, xs: seq<T>)
    requires 0 < v.slots && |v.fifo| < v.slots
    ensures Accepted(v, AddAll(xs)) == xs <==> |v.fifo| + |xs| < v.slots
    decreases |xs|
  {
    if xs != [] {
      var ops, v' := AddAll(xs), Apply(v, Add(xs[0], false)).view;
      assert ops[1..] == AddAll(xs[1..]);
      FitsWithoutMemory(v', xs[1..]);
      if |v.fifo| < v.slots - 1 {
        assert Accepted(v, ops) == [xs[0]] + Accepted(v', ops[1..]);
        assert xs == [xs[0]] + xs[1..];
      } else {
        AcceptedBound(v', xs[1..]);
      }
    }
  }

  lemma {:induction false} AcceptedBound<T>(v: View<T>, xs: seq<T>)
    requires 0 < v.slots
    ensures |Accepted(v, AddAll(xs))| <= |xs|
    decreases |xs|
  {
    if xs != [] {
      assert AddAll(xs)[1..] == AddAll(xs[1..]);
      AcceptedBound(Apply(v, Add(xs[0], false)).view, xs[1..]);
    }
  }
}
