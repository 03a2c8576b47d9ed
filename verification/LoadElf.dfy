/**
 Loading an ELF segment (os161-1.11/kern/userprog/loadelf.c) through uio (uio.c) and the
 checked copies to and from user space (os161-1.11/kern/lib/copyinout.c).
 */
module UserCopy {
  const SPACE := 0x1_0000_0000
  const USERTOP := 0x8000_0000

  datatype Error = Ok | Efault | Enoexec | Enametoolong | Io(code: int)

  /** r is `mem` with `data` at address a. */
  ghost predicate IsOverlay(r: seq<int>, mem: seq<int>, a: nat, data: seq<int>)
    requires a + |data| <= |mem|
  {
    |r| == |mem| && forall i :: 0 <= i < |r| ==> r[i] == if a <= i < a + |data| then data[i - a] else mem[i]
  }

  ghost function Overlay(mem: seq<int>, a: nat, data: seq<int>): (r: seq<int>)
    requires a + |data| <= |mem|
    ensures IsOverlay(r, mem, a, data)
  {
    var r := mem[..a] + data + mem[a + |data|..];
    assert IsOverlay(r, mem, a, data);
    var r :| IsOverlay(r, mem, a, data);
    r
  }

  lemma OverlayTwice(mem: seq<int>, a: nat, x: seq<int>, y: seq<int>)
    requires a + |x| + |y| <= |mem|
    ensures Overlay(Overlay(mem, a, x), a + |x|, y) == Overlay(mem, a, x + y)
  {
  }

  lemma OverlayNothing(mem: seq<int>, a: nat)
    requires a <= |mem|
    ensures Overlay(mem, a, []) == mem
  {
  }

  /** No byte changed outside [lo, hi), and none at or above USERTOP. */
  ghost predicate OnlyWithin(before: seq<int>, after: seq<int>, lo: int, hi: int) {
    |before| == |after| && forall i :: 0 <= i < |before| && (i < lo || i >= hi || i >= USERTOP) ==> after[i] == before[i]
  }

  /** A block copycheck lets through whole: it is not empty and ends at or below USERTOP. */
  predicate InUserSpace(bot: nat, len: nat) {
    len > 0 && bot + len <= USERTOP
  }

  /** copycheck; false is EFAULT. */
  method CopyCheck(bot: nat, len: nat) returns (ok: bool, stoplen: nat)
    requires bot < SPACE && len < SPACE
    ensures ok <==> bot < USERTOP && ((len > 0 && bot + len <= SPACE) || (len == 0 && bot == 0))
    ensures ok && len > 0 ==> stoplen == if bot + len <= USERTOP then len else USERTOP - bot
    ensures ok && stoplen == len <==> InUserSpace(bot, len)
  {
    stoplen := len;
    var top := (bot + len - 1) % SPACE;
    TopOf(bot, len);
    if top < bot {
      return false, stoplen;
    }
    if bot >= USERTOP {
      return false, stoplen;
    }
    if top >= USERTOP {
      stoplen := USERTOP - bot;
    }
    return true, stoplen;
  }

  lemma TopOf(bot: nat, len: nat)
    requires bot < SPACE && len < SPACE
    ensures (bot + len - 1) % SPACE == (if bot + len == 0 then SPACE - 1 else if bot + len <= SPACE then bot + len - 1 else bot + len - 1 - SPACE)
  {
  }

  class Memory {
    /** All of virtual memory, and which user addresses can be touched without a fatal fault. */
    var mem: seq<int>
    const mapped: nat -> bool

    ghost predicate Valid()
      reads this
    {
      |mem| == SPACE
    }

    ghost predicate Mapped(a: nat, len: nat) {
      forall i: nat :: a <= i < a + len ==> mapped(i)
    }

    /** memcpy to user memory under setjmp: it stops at the first fatal fault. */
    method CopyBytes(src: seq<int>, dest: nat) returns (fault: bool)
      requires Valid() && dest + |src| <= USERTOP
      modifies this`mem
      ensures Valid() && (fault <==> !Mapped(dest, |src|))
      ensures !fault ==> mem == Overlay(old(mem), dest, src)
      ensures OnlyWithin(old(mem), mem, dest, dest + |src|)
    {
      var i := 0;
      while i < |src|
        invariant 0 <= i <= |src| && Valid() && Mapped(dest, i)
        invariant forall k :: 0 <= k < |mem| ==> mem[k] == if dest <= k < dest + i then src[k - dest] else old(mem)[k]
      {
        if !mapped(dest + i) {
          return true;
        }
        mem := mem[dest + i := src[i]];
        i := i + 1;
      }
      return false;
    }

    /** copyout */
    method CopyOut(src: seq<int>, userdest: nat) returns (result: Error)
      requires Valid() && userdest < SPACE && |src| < SPACE
      modifies this`mem
      ensures Valid() && (result == Ok || result == Efault)
      ensures result == Ok <==> InUserSpace(userdest, |src|) && Mapped(userdest, |src|)
      ensures result == Ok ==> mem == Overlay(old(mem), userdest, src)
      ensures OnlyWithin(old(mem), mem, userdest, userdest + |src|)
    {
      var ok, stoplen := CopyCheck(userdest, |src|);
      if !ok {
        return Efault;
      }
      if stoplen != |src| {
        return Efault;
      }
      var fault := CopyBytes(src, userdest);
      if fault {
        return Efault;
      }
      return Ok;
    }

    /** copyin; the bytes copied are returned. */
    method CopyIn(usersrc: nat, len: nat) returns (result: Error, data: seq<int>)
      requires Valid() && usersrc < SPACE && len < SPACE
      ensures result == Ok || result == Efault
      ensures result == Ok <==> InUserSpace(usersrc, len) && Mapped(usersrc, len)
      ensures result == Ok ==> data == mem[usersrc..usersrc + len]
    {
      var ok, stoplen := CopyCheck(usersrc, len);
      if !ok {
        return Efault, [];
      }
      if stoplen != len {
        return Efault, [];
      }
      var i := 0;
      data := [];
      while i < len
        invariant 0 <= i <= len && Mapped(usersrc, i) && data == mem[usersrc..usersrc + i]
      {
        if !mapped(usersrc + i) {
          return Efault, [];
        }
        data := data + [mem[usersrc + i]];
        i := i + 1;
      }
      return Ok, data;
    }
  }

  /** Length of the string at the start of s, NUL included, if it ends within s. */
  function StringLength(s: seq<int>): (n: nat)
    ensures n <= |s| && (n > 0 ==> s[n - 1] == 0) && (n == 0 ==> 0 !in s) && forall k :: 0 <= k < n - 1 ==> s[k] != 0
  {
    if s == [] then 0
    else if s[0] == 0 then 1
    else var n := StringLength(s[1..]); if n == 0 then assert forall k :: 0 <= k < |s| ==> s[k] == ([s[0]] + s[1..])[k]; 0 else n + 1
  }

  function Min(a: nat, b: nat): nat { if a < b then a else b }

  /** copystr: the string with its NUL, or how it failed. */
  method CopyStr(dest: array<int>, src: seq<int>, maxlen: nat, stoplen: nat) returns (result: Error, gotlen: nat)
    requires maxlen <= dest.Length && Min(maxlen, stoplen) <= |src|
    modifies dest
    ensures gotlen == StringLength(src[..Min(maxlen, stoplen)])
    ensures result == (if gotlen > 0 then Ok else if stoplen < maxlen then Efault else Enametoolong)
    ensures dest[..gotlen] == src[..gotlen]
    ensures forall k :: Min(maxlen, stoplen) <= k < dest.Length ==> dest[k] == old(dest[k])
  {
    ghost var s := src[..Min(maxlen, stoplen)];
    var i := 0;
    while i < maxlen && i < stoplen
      invariant 0 <= i <= |s| && dest[..i] == src[..i]
      invariant forall k :: 0 <= k < i ==> s[k] != 0
      invariant forall k :: |s| <= k < dest.Length ==> dest[k] == old(dest[k])
    {
      dest[i] := src[i];
      if src[i] == 0 {
        assert s[i] == 0;
        return Ok, i + 1;
      }
      i := i + 1;
    }
    if stoplen < maxlen {
      return Efault, 0;
    }
    return Enametoolong, 0;
  }
}

module UserIo {
  import opened UserCopy

  datatype Direction = Read | Write
  datatype Segment = User | UserInstructions | System

  function Zeros(n: nat): (z: seq<int>)
    ensures |z| == n && forall k :: 0 <= k < n ==> z[k] == 0
  {
    seq(n, _ => 0)
  }

  /** Unsigned subtraction. */
  function Less(resid: nat, n: nat): (r: nat)
    requires n < SPACE
  {
    if n <= resid then resid - n else resid + SPACE - n
  }

  class Uio {
    var base: nat
    var len: nat
    var offset: int
    var resid: nat
    const segflg: Segment
    const rw: Direction

    constructor (base: nat, len: nat, offset: int, resid: nat, segflg: Segment, rw: Direction)
      ensures this.base == base && this.len == len && this.offset == offset && this.resid == resid
      ensures this.segflg == segflg && this.rw == rw
    {
      this.base, this.len, this.offset, this.resid, this.segflg, this.rw := base, len, offset, resid, segflg, rw;
    }

    /** Pointer and length are 32-bit; a kernel block lies in memory, a user block may be anything. */
    ghost predicate Valid()
      reads this
    {
      len < SPACE && resid < SPACE && (if segflg == System then base + len <= SPACE else base < SPACE)
    }

    /** The uio has moved on by n bytes; the count of what is left wraps if that is more than it was. */
    twostate predicate Advanced(n: nat)
      reads this
    {
      && base == old(base) + n && old(len) >= n && len == old(len) - n && n < SPACE
      && resid == Less(old(resid), n) && offset == old(offset) + n
    }
  }

  /** Where uiomove may write: a user block only below USERTOP, a kernel block anywhere in itself. */
  ghost predicate Kept(before: seq<int>, after: seq<int>, seg: Segment, lo: int, hi: int) {
    |before| == |after| &&
    forall i :: 0 <= i < |before| && (i < lo || i >= hi || (seg != System && i >= USERTOP)) ==> after[i] == before[i]
  }

  /** The bytes of a block can be reached through a uio of this kind. */
  ghost predicate Reachable(m: Memory, seg: Segment, a: nat, len: nat) {
    seg == System || (InUserSpace(a, len) && m.Mapped(a, len))
  }

  /** One chunk of uiomove, from the kernel's buffer to the block. */
  method PutChunk(m: Memory, data: seq<int>, base: nat, seg: Segment) returns (result: Error)
    requires m.Valid() && 0 < |data| < SPACE && (if seg == System then base + |data| <= SPACE else base < SPACE)
    modifies m`mem
    ensures m.Valid() && (result == Ok || result == Efault)
    ensures result == Ok <==> Reachable(m, seg, base, |data|)
    ensures result == Ok ==> m.mem == Overlay(old(m.mem), base, data)
    ensures Kept(old(m.mem), m.mem, seg, base, base + |data|)
  {
    if seg == System {
      m.mem := m.mem[..base] + data + m.mem[base + |data|..];
      result := Ok;
    } else {
      result := m.CopyOut(data, base);
    }
  }

  /** The body of uiomove's loop for a chunk that is not empty. */
  method MoveChunk(m: Memory, chunk: seq<int>, u: Uio) returns (result: Error)
    requires m.Valid() && u.Valid() && 0 < |chunk| <= u.len
    modifies m`mem, u
    ensures m.Valid() && u.Valid() && (result == Ok || result == Efault)
    ensures result == Ok <==> Reachable(m, u.segflg, old(u.base), |chunk|)
    ensures result == Ok ==> u.Advanced(|chunk|) && m.mem == Overlay(old(m.mem), old(u.base), chunk)
    ensures result != Ok ==> u.Advanced(0)
    ensures Kept(old(m.mem), m.mem, u.segflg, old(u.base), old(u.base) + |chunk|)
  {
    result := PutChunk(m, chunk, u.base, u.segflg);
    if result == Ok {
      u.base := u.base + |chunk|;
      u.len := u.len - |chunk|;
      u.resid := Less(u.resid, |chunk|);
      u.offset := u.offset + |chunk|;
    }
  }

  /** `data` has been written over `mem` at `base`, and u points behind it. */
  ghost predicate Sofar(m: Memory, u: Uio, mem: seq<int>, base: nat, data: seq<int>)
    reads m, u
  {
    && m.Valid() && u.Valid() && |mem| == SPACE && base + |data| <= SPACE && u.base == base + |data|
    && m.mem == Overlay(mem, base, data) && (data != [] ==> Reachable(m, u.segflg, base, |data|))
  }

  /** How much uiomove moves of n bytes: what the block has room for, but nothing once none is left to be moved. */
  function Moved(n: nat, len: nat, resid: nat): nat {
    if resid == 0 then 0 else Min(n, len)
  }

  /**
   uiomove for a read, `data` being the kernel's buffer. `panicked` is its complaint that the
   size reached 0: the block was too short, and the count of what is left did not end with it.
   */
  method UioMove(m: Memory, data: seq<int>, u: Uio) returns (result: Error, panicked: bool)
    requires m.Valid() && u.Valid() && u.rw == Read
    modifies m`mem, u
    ensures m.Valid() && u.Valid() && (result == Ok || result == Efault)
    ensures var k := Moved(|data|, old(u.len), old(u.resid));
            && (result == Ok <==> k == 0 || Reachable(m, u.segflg, old(u.base), k))
            && (result == Ok ==> u.Advanced(k) && m.mem == Overlay(old(m.mem), old(u.base), data[..k]))
            && (panicked <==> result == Ok && k < |data| && k != old(u.resid))
            && Kept(old(m.mem), m.mem, u.segflg, old(u.base), old(u.base) + k)
    ensures result != Ok ==> u.Advanced(0)
  {
    var done := 0;
    ghost var mem, base := m.mem, u.base;
    OverlayNothing(mem, base);
    while done < |data| && u.resid > 0
      invariant 0 <= done <= |data| && (done == 0 || (done == Min(|data|, old(u.len)) && old(u.resid) > 0))
      invariant Sofar(m, u, mem, base, data[..done]) && u.Advanced(done)
    {
      var size := u.len;
      if size > |data| - done {
        size := |data| - done;
      }
      if size == 0 {
        assert Kept(mem, m.mem, u.segflg, base, base + done) by {
          OverlayKept(mem, u.segflg, base, data[..done], done);
        }
        return Ok, true;
      }
      result := MoveChunk(m, data[done..done + size], u);
      if result != Ok {
        return result, false;
      }
      done := done + size;
    }
    assert Kept(mem, m.mem, u.segflg, base, base + done) by {
      OverlayKept(mem, u.segflg, base, data[..done], done);
    }
    return Ok, false;
  }

  /** One chunk of uiomove for a write, from the block to the kernel's buffer. */
  method TakeChunk(m: Memory, n: nat, u: Uio) returns (result: Error, chunk: seq<int>)
    requires m.Valid() && u.Valid() && 0 < n <= u.len
    modifies u
    ensures u.Valid() && (result == Ok || result == Efault)
    ensures result == Ok <==> Reachable(m, u.segflg, old(u.base), n)
    ensures result == Ok ==> u.Advanced(n) && chunk == m.mem[old(u.base)..old(u.base) + n]
    ensures result != Ok ==> u.Advanced(0)
  {
    if u.segflg == System {
      result, chunk := Ok, m.mem[u.base..u.base + n];
    } else {
      result, chunk := m.CopyIn(u.base, n);
    }
    if result == Ok {
      u.base := u.base + n;
      u.len := u.len - n;
      u.resid := Less(u.resid, n);
      u.offset := u.offset + n;
    }
  }

  /** `data` is what the block at base begins with, and u points behind it. */
  ghost predicate TakenSofar(m: Memory, u: Uio, base: nat, data: seq<int>)
    reads m, u
  {
    && m.Valid() && u.Valid() && u.base == base + |data| <= SPACE && data == m.mem[base..base + |data|]
    && (data != [] ==> Reachable(m, u.segflg, base, |data|))
  }

  method TakeNext(m: Memory, n: nat, u: Uio, ghost base: nat, data: seq<int>) returns (result: Error, more: seq<int>)
    requires TakenSofar(m, u, base, data) && 0 < n <= u.len
    modifies u
    ensures u.Valid() && (result == Ok || result == Efault)
    ensures result == Ok ==> u.Advanced(n) && |more| == |data| + n && TakenSofar(m, u, base, more)
    ensures result != Ok ==> u.Advanced(0) && more == data && !Reachable(m, u.segflg, old(u.base), n)
  {
    var chunk;
    result, chunk := TakeChunk(m, n, u);
    if result != Ok {
      return result, data;
    }
    more := data + chunk;
    ReachableParts(m, u.segflg, base, |data|, n, |data| + n);
  }

  /** uiomove for a write: the bytes it puts into the kernel's buffer. */
  method UioTake(m: Memory, n: nat, u: Uio) returns (result: Error, panicked: bool, data: seq<int>)
    requires m.Valid() && u.Valid() && u.rw == Write
    modifies u
    ensures u.Valid() && (result == Ok || result == Efault)
    ensures var k := Moved(n, old(u.len), old(u.resid));
            && (result == Ok <==> k == 0 || Reachable(m, u.segflg, old(u.base), k))
            && (result == Ok ==> u.Advanced(k) && old(u.base) + k <= SPACE && data == m.mem[old(u.base)..old(u.base) + k])
            && (panicked <==> result == Ok && k < n && k != old(u.resid))
    ensures result != Ok ==> u.Advanced(0)
  {
    data := [];
    ghost var base := u.base;
    while |data| < n && u.resid > 0
      invariant |data| <= n && (|data| == 0 || (|data| == Min(n, old(u.len)) && old(u.resid) > 0))
      invariant u.Advanced(|data|) && TakenSofar(m, u, base, data)
      decreases n - |data|
    {
      var size := u.len;
      if size > n - |data| {
        size := n - |data|;
      }
      if size == 0 {
        return Ok, true, data;
      }
      result, data := TakeNext(m, size, u, base, data);
      if result != Ok {
        return result, false, data;
      }
    }
    return Ok, false, data;
  }

  /** uiomove as one of a series: `sofar` of n bytes are written over `mem` at `base` already. */
  method PutNext(m: Memory, chunk: seq<int>, u: Uio, ghost mem: seq<int>, ghost base: nat, ghost sofar: seq<int>, ghost n: nat)
    returns (result: Error)
    requires m.Valid() && u.Valid() && u.rw == Read && 0 < |chunk| <= u.resid && |chunk| <= u.len && |sofar| + |chunk| <= n
    requires |mem| == SPACE && u.base == base + |sofar| && m.mem == Overlay(mem, base, sofar)
    requires sofar != [] ==> Reachable(m, u.segflg, base, |sofar|)
    modifies m`mem, u
    ensures m.Valid() && u.Valid() && (result == Ok || result == Efault)
    ensures result == Ok ==> Reachable(m, u.segflg, base, |sofar| + |chunk|)
    ensures result == Ok ==> u.Advanced(|chunk|) && m.mem == Overlay(mem, base, sofar + chunk)
    ensures result != Ok ==> !Reachable(m, u.segflg, base, n) && Kept(mem, m.mem, u.segflg, base, base + n)
  {
    ghost var before := m.mem;
    var panicked;
    result, panicked := UioMove(m, chunk, u);
    ReachableParts(m, u.segflg, base, |sofar|, |chunk|, n);
    if result == Ok {
      assert m.mem == Overlay(mem, base, sofar + chunk) by {
        OverlayTwice(mem, base, sofar, chunk);
      }
    } else {
      assert Kept(mem, m.mem, u.segflg, base, base + n) by {
        OverlayKept(mem, u.segflg, base, sofar, n);
        KeptTwice(mem, before, m.mem, u.segflg, base, |sofar|, |chunk|, n);
      }
    }
  }

  /**
   How many of n zeros uiomovezeros writes: all that the block has room for, unless the count of
   what is left runs out just where one piece of 16 ends; inside a piece it is not looked at.
   */
  function ZerosMoved(n: nat, len: nat, resid: nat): nat {
    if resid % 16 == 0 && resid <= Min(n, len) then resid else Min(n, len)
  }

  /** The next piece of at most 16 after x zeros. */
  lemma NextPiece(n: nat, len: nat, resid: nat, x: nat)
    requires x < n < SPACE && x <= len < SPACE && resid < SPACE && x % 16 == 0 && x <= ZerosMoved(n, len, resid)
    ensures var amt, left, all := Min(n - x, 16), Less(resid, x), ZerosMoved(n, len, resid);
            var k := Moved(amt, len - x, left);
            && x + k <= all && (left == 0 ==> x == all)
            && (k < amt ==> x + k == all && (k == left <==> all == resid))
            && (k == amt && x + amt < n ==> (x + amt) % 16 == 0)
  {
    var c, r := x / 16, resid / 16;
    assert x == 16 * c;
    assert resid % 16 == 0 ==> resid == 16 * r;
    Multiples(c, r);
  }

  lemma Multiples(c: int, r: int)
    ensures 16 * c < 16 * r ==> 16 * c + 16 <= 16 * r
  {
  }

  /** With `left` of n zeros to go x have been written: all so far, or as many as there will be. */
  ghost predicate ZeroProgress(n: nat, left: nat, len: nat, resid: nat, x: nat) {
    var all := ZerosMoved(n, len, resid);
    && left <= n && x <= all && x <= len
    && if x == n - left then left == 0 || x % 16 == 0 else x < n - left && x == all == resid
  }

  lemma ProgressOn(n: nat, left: nat, len: nat, resid: nat, x: nat)
    requires 0 < left && n < SPACE && len < SPACE && resid < SPACE && ZeroProgress(n, left, len, resid, x)
    ensures var amt := Min(left, 16);
            var k, all := Moved(amt, len - x, Less(resid, x)), ZerosMoved(n, len, resid);
            && x + k <= all
            && (if k < amt && k != Less(resid, x) then x + k == all < n && all != resid else ZeroProgress(n, left - amt, len, resid, x + k))
  {
    if x == n - left {
      NextPiece(n, len, resid, x);
    }
  }

  /** A round of uiomovezeros: up to 16 zeros more, of `all` that will be written. */
  method ZeroStep(m: Memory, amt: nat, u: Uio, ghost mem: seq<int>, ghost base: nat, ghost x: nat, ghost all: nat)
    returns (result: Error, panicked: bool)
    requires Sofar(m, u, mem, base, Zeros(x)) && u.rw == Read && x + Moved(amt, u.len, u.resid) <= all
    modifies m`mem, u
    ensures m.Valid() && u.Valid() && (result == Ok || result == Efault)
    ensures var k := Moved(amt, old(u.len), old(u.resid));
            && (result == Ok ==> u.Advanced(k) && Sofar(m, u, mem, base, Zeros(x + k)))
            && (panicked <==> result == Ok && k < amt && k != old(u.resid))
    ensures result != Ok ==> u.Advanced(0) && all > 0 && !Reachable(m, u.segflg, base, all) && Kept(mem, m.mem, u.segflg, base, base + all)
  {
    ghost var before, k := m.mem, Moved(amt, u.len, u.resid);
    result, panicked := UioMove(m, Zeros(amt), u);
    assert Zeros(amt)[..k] == Zeros(k);
    if k > 0 {
      ReachableParts(m, u.segflg, base, x, k, all);
    }
    if result == Ok {
      assert m.mem == Overlay(mem, base, Zeros(x + k)) by {
        OverlayTwice(mem, base, Zeros(x), Zeros(k));
        ZerosAdd(x, k);
      }
    } else {
      assert Kept(mem, m.mem, u.segflg, base, base + all) by {
        OverlayKept(mem, u.segflg, base, Zeros(x), all);
        KeptTwice(mem, before, m.mem, u.segflg, base, x, k, all);
      }
    }
  }

  /** ... with what it leaves to be done. */
  method ZeroRound(m: Memory, ghost n: nat, left: nat, u: Uio, ghost mem: seq<int>, ghost base: nat, ghost len: nat, ghost resid: nat, ghost x: nat)
    returns (result: Error, panicked: bool, left': nat, ghost k: nat)
    requires 0 < left && n < SPACE && len < SPACE && resid < SPACE && ZeroProgress(n, left, len, resid, x)
    requires Sofar(m, u, mem, base, Zeros(x)) && u.rw == Read && u.len == len - x && u.resid == Less(resid, x)
    modifies m`mem, u
    ensures m.Valid() && u.Valid() && (result == Ok || result == Efault) && left' < left
    ensures var all := ZerosMoved(n, len, resid);
            if result == Ok then
              && u.Advanced(k) && Sofar(m, u, mem, base, Zeros(x + k))
              && if panicked then x + k == all < n && all != resid else ZeroProgress(n, left', len, resid, x + k)
            else !panicked && all > 0 && !Reachable(m, u.segflg, base, all) && Kept(mem, m.mem, u.segflg, base, base + all)
  {
    var amt := 16;
    if amt > left {
      amt := left;
    }
    k := Moved(amt, u.len, u.resid);
    ProgressOn(n, left, len, resid, x);
    result, panicked := ZeroStep(m, amt, u, mem, base, x, ZerosMoved(n, len, resid));
    left' := left - amt;
  }

  /** uiomovezeros; for a read, as its assertion demands. `panicked` is uiomove's complaint about a block too short. */
  method UioMoveZeros(m: Memory, n: nat, u: Uio) returns (result: Error, panicked: bool)
    requires m.Valid() && u.Valid() && u.rw == Read && n < SPACE
    modifies m`mem, u
    ensures m.Valid() && u.Valid() && (result == Ok || result == Efault)
    ensures var k := ZerosMoved(n, old(u.len), old(u.resid));
            && (result == Ok <==> k == 0 || Reachable(m, u.segflg, old(u.base), k))
            && (result == Ok ==> u.Advanced(k) && m.mem == Overlay(old(m.mem), old(u.base), Zeros(k)))
            && (panicked <==> result == Ok && k < n && k != old(u.resid))
            && Kept(old(m.mem), m.mem, u.segflg, old(u.base), old(u.base) + k)
  {
    var left := n;
    result, panicked := Ok, false;
    ghost var mem, base, len, resid := m.mem, u.base, u.len, u.resid;
    ghost var x: nat, all := 0, ZerosMoved(n, len, resid);
    OverlayNothing(mem, base);
    while left > 0 && !panicked
      invariant 0 <= left <= n && Sofar(m, u, mem, base, Zeros(x)) && u.Advanced(x) && result == Ok
      invariant if panicked then x == all < n && all != resid else ZeroProgress(n, left, len, resid, x)
      decreases left, !panicked
    {
      ghost var k;
      result, panicked, left, k := ZeroRound(m, n, left, u, mem, base, len, resid, x);
      if result != Ok {
        return;
      }
      x := x + k;
    }
    assert x == all;
    assert Kept(mem, m.mem, u.segflg, base, base + all) by {
      OverlayKept(mem, u.segflg, base, Zeros(all), all);
    }
  }

  lemma OverlayKept(mem: seq<int>, seg: Segment, a: nat, data: seq<int>, n: nat)
    requires a + |data| <= |mem| && |data| <= n && (seg == System || data == [] || a + |data| <= USERTOP)
    ensures Kept(mem, Overlay(mem, a, data), seg, a, a + n)
  {
  }

  /** A longer block is reachable only if its parts are. */
  lemma ReachableParts(m: Memory, seg: Segment, a: nat, x: nat, y: nat, n: nat)
    requires 0 < y && x + y <= n
    ensures Reachable(m, seg, a, n) ==> Reachable(m, seg, a + x, y)
    ensures (x == 0 || Reachable(m, seg, a, x)) && Reachable(m, seg, a + x, y) ==> Reachable(m, seg, a, x + y)
  {
  }

  lemma KeptTwice(s0: seq<int>, s1: seq<int>, s2: seq<int>, seg: Segment, a: nat, x: nat, y: nat, n: nat)
    requires Kept(s0, s1, seg, a, a + n) && Kept(s1, s2, seg, a + x, a + x + y) && x + y <= n
    ensures Kept(s0, s2, seg, a, a + n)
  {
  }

  lemma ZerosAdd(a: nat, b: nat)
    ensures Zeros(a) + Zeros(b) == Zeros(a + b)
  {
  }
}

module LoadElf {
  import opened UserCopy
  import opened UserIo

  /** The bytes that a read of n bytes at `offset` gets: fewer at the end of the file. */
  function Contents(file: seq<int>, offset: nat, n: nat): (r: seq<int>)
    ensures |r| <= n && (|r| == n <==> n == 0 || offset + n <= |file|)
  {
    if offset >= |file| then [] else file[offset..offset + Min(n, |file| - offset)]
  }

  lemma ContentsAdd(file: seq<int>, offset: nat, a: nat, b: nat)
    requires |Contents(file, offset, a)| == a
    ensures Contents(file, offset, a) + Contents(file, offset + a, b) == Contents(file, offset, a + b)
  {
  }

  /** The read of n bytes at `offset` to `base` has got as far as its first `done` bytes. */
  ghost predicate ReadSoFar(m: Memory, u: Uio, file: seq<int>, mem: seq<int>, base: nat, offset: nat, n: nat, done: nat)
    reads m, u
  {
    && m.Valid() && u.Valid() && |mem| == SPACE && done <= |Contents(file, offset, n)| && |Contents(file, offset, done)| == done
    && u.base == base + done && u.offset == offset + done && u.resid == n - done && u.resid <= u.len
    && base + done <= SPACE && m.mem == Overlay(mem, base, Contents(file, offset, done))
    && (done > 0 ==> Reachable(m, u.segflg, base, done))
  }

  /** One block of the read, of the size the file system likes or what is left. */
  method NextBlock(m: Memory, file: seq<int>, u: Uio, want: nat, ghost mem: seq<int>, ghost base: nat, ghost offset: nat, ghost n: nat, ghost done: nat)
    returns (result: Error, size: nat)
    requires ReadSoFar(m, u, file, mem, base, offset, n, done) && u.rw == Read && u.resid > 0 && u.offset < |file|
    modifies m`mem, u
    ensures m.Valid() && u.Valid() && (result == Ok || result == Efault) && size > 0
    ensures result == Ok ==> u.Advanced(size) && ReadSoFar(m, u, file, mem, base, offset, n, done + size)
    ensures result != Ok ==> !Reachable(m, u.segflg, base, |Contents(file, offset, n)|)
                             && Kept(mem, m.mem, u.segflg, base, base + |Contents(file, offset, n)|)
  {
    size := Min(if want == 0 then 1 else want, Min(u.resid, |file| - u.offset));
    ContentsFit(file, offset, done, size, n);
    result := PutBlock(m, file, u, size, mem, base, offset, n, done);
  }

  method PutBlock(m: Memory, file: seq<int>, u: Uio, size: nat, ghost mem: seq<int>, ghost base: nat, ghost offset: nat, ghost n: nat, ghost done: nat)
    returns (result: Error)
    requires ReadSoFar(m, u, file, mem, base, offset, n, done) && u.rw == Read && 0 < size <= u.resid
    requires |Contents(file, u.offset, size)| == size && |Contents(file, offset, done + size)| == done + size <= |Contents(file, offset, n)|
    requires Contents(file, offset, done) + Contents(file, u.offset, size) == Contents(file, offset, done + size)
    modifies m`mem, u
    ensures m.Valid() && u.Valid() && (result == Ok || result == Efault)
    ensures result == Ok ==> u.Advanced(size) && ReadSoFar(m, u, file, mem, base, offset, n, done + size)
    ensures result != Ok ==> !Reachable(m, u.segflg, base, |Contents(file, offset, n)|)
                             && Kept(mem, m.mem, u.segflg, base, base + |Contents(file, offset, n)|)
  {
    result := PutNext(m, Contents(file, u.offset, size), u, mem, base, Contents(file, offset, done), |Contents(file, offset, n)|);
  }

  lemma ContentsFit(file: seq<int>, offset: nat, done: nat, size: nat, n: nat)
    requires |Contents(file, offset, done)| == done && done + size <= n && offset + done + size <= |file|
    ensures |Contents(file, offset + done, size)| == size && |Contents(file, offset, done + size)| == done + size <= |Contents(file, offset, n)|
    ensures Contents(file, offset, done) + Contents(file, offset + done, size) == Contents(file, offset, done + size)
  {
    ContentsAdd(file, offset, done, size);
  }

  /**
   VOP_READ as a file system does it: blocks of any sizes through uiomove, short only at the
   end of the file, and an input error before any block.
   */
  method VopRead(m: Memory, file: seq<int>, u: Uio, block: nat -> nat, fail: nat -> int) returns (result: Error)
    requires m.Valid() && u.Valid() && u.rw == Read && 0 <= u.offset && u.resid <= u.len
    modifies m`mem, u
    ensures m.Valid() && u.Valid()
    ensures Kept(old(m.mem), m.mem, u.segflg, old(u.base), old(u.base) + old(u.resid))
    ensures var data := Contents(file, old(u.offset), old(u.resid));
            && (result == Ok && data != [] ==> Reachable(m, u.segflg, old(u.base), |data|))
            && (result == Ok ==> u.Advanced(|data|) && m.mem == Overlay(old(m.mem), old(u.base), data))
            && (result == Efault ==> data != [] && !Reachable(m, u.segflg, old(u.base), |data|))
    ensures (forall k :: fail(k) == 0) ==> result == Ok || result == Efault
  {
    ghost var n, done, mem, base, offset := u.resid, 0, m.mem, u.base, u.offset;
    var k := 0;
    OverlayNothing(m.mem, u.base);
    while u.resid > 0 && u.offset < |file|
      invariant 0 <= done <= n && ReadSoFar(m, u, file, mem, base, offset, n, done) && u.Advanced(done)
      decreases n - done
    {
      if fail(k) != 0 {
        assert Kept(mem, m.mem, u.segflg, base, base + n) by {
          OverlayKept(mem, u.segflg, base, Contents(file, offset, done), n);
        }
        return Io(fail(k));
      }
      var size;
      result, size := NextBlock(m, file, u, block(k), mem, base, offset, n, done);
      if result != Ok {
        assert Kept(mem, m.mem, u.segflg, base, base + n) by {
          KeptWider(mem, m.mem, u.segflg, base, |Contents(file, offset, n)|, n);
        }
        return;
      }
      done := done + size;
      k := k + 1;
    }
    ContentsEnd(file, offset, n, done);
    assert Kept(mem, m.mem, u.segflg, base, base + n) by {
      OverlayKept(mem, u.segflg, base, Contents(file, offset, done), n);
    }
    return Ok;
  }

  lemma ContentsEnd(file: seq<int>, offset: nat, n: nat, done: nat)
    requires done <= n && |Contents(file, offset, done)| == done && (done == n || offset + done >= |file|)
    ensures Contents(file, offset, done) == Contents(file, offset, n)
  {
  }

  lemma KeptWider(before: seq<int>, after: seq<int>, seg: Segment, a: nat, n: nat, n': nat)
    requires Kept(before, after, seg, a, a + n) && n <= n'
    ensures Kept(before, after, seg, a, a + n')
  {
  }

  /** A segment as it should be in memory: the file's bytes, then zeros. */
  function Image(file: seq<int>, offset: nat, memsize: nat, filesize: nat): seq<int> {
    Contents(file, offset, Min(filesize, memsize)) + Zeros(memsize - Min(filesize, memsize))
  }

  /** Nothing will stop the load: no input error, enough file, and the memory in user space and mapped. */
  ghost predicate Loadable(m: Memory, file: seq<int>, offset: nat, vaddr: nat, memsize: nat, filesize: nat, fail: nat -> int) {
    && (forall k :: fail(k) == 0)
    && |Image(file, offset, memsize, filesize)| == memsize
    && (memsize == 0 || (InUserSpace(vaddr, memsize) && m.Mapped(vaddr, memsize)))
  }

  /** load_segment's zero fill of what the file does not cover, after `read` has gone to `vaddr`. */
  method FillRest(m: Memory, u: Uio, fillamt: nat, ghost mem: seq<int>, ghost vaddr: nat, ghost read: seq<int>) returns (result: Error)
    requires m.Valid() && u.Valid() && u.rw == Read && u.segflg != System && u.resid == 0 && u.len == fillamt
    requires |mem| == SPACE && u.base == vaddr + |read| && m.mem == Overlay(mem, vaddr, read)
    requires read != [] ==> Reachable(m, u.segflg, vaddr, |read|)
    modifies m`mem, u
    ensures m.Valid() && OnlyWithin(mem, m.mem, vaddr, vaddr + |read| + fillamt)
    ensures result == Ok && |read| + fillamt > 0 ==> vaddr + |read| + fillamt <= USERTOP
    ensures result == Ok ==> m.mem == Overlay(mem, vaddr, read + Zeros(fillamt))
    ensures Reachable(m, u.segflg, vaddr, |read| + fillamt) || |read| + fillamt == 0 ==> result == Ok
  {
    if fillamt == 0 {
      assert read + Zeros(0) == read;
      return Ok;
    }
    ghost var before, n := m.mem, |read| + fillamt;
    u.resid := u.resid + fillamt;
    var panicked;
    result, panicked := UioMoveZeros(m, fillamt, u);
    assert !panicked;
    assert OnlyWithin(mem, m.mem, vaddr, vaddr + n) by {
      OverlayKept(mem, u.segflg, vaddr, read, n);
      KeptTwice(mem, before, m.mem, u.segflg, vaddr, |read|, fillamt, n);
    }
    ReachableParts(m, u.segflg, vaddr, |read|, fillamt, n);
    if result == Ok {
      OverlayTwice(mem, vaddr, read, Zeros(fillamt));
    }
  }

  /**
   load_segment. On success the segment's memory holds exactly its image, all of it in user
   space; on success or failure no byte outside the segment and none from USERTOP up changes.
   */
  method LoadSegment(m: Memory, file: seq<int>, offset: nat, vaddr: nat, memsize: nat, filesize: nat, executable: bool,
                     block: nat -> nat, fail: nat -> int) returns (result: Error)
    requires m.Valid() && memsize < SPACE && vaddr < SPACE
    modifies m`mem
    ensures m.Valid() && OnlyWithin(old(m.mem), m.mem, vaddr, vaddr + memsize)
    ensures result == Ok ==> |Image(file, offset, memsize, filesize)| == memsize
    ensures result == Ok && memsize > 0 ==> vaddr + memsize <= USERTOP
    ensures result == Ok ==> m.mem == Overlay(old(m.mem), vaddr, Image(file, offset, memsize, filesize))
    ensures Loadable(m, file, offset, vaddr, memsize, filesize, fail) ==> result == Ok
  {
    var size := filesize;
    if size > memsize {
      size := memsize;
    }
    var u := new Uio(vaddr, memsize, offset, size, if executable then UserInstructions else User, Read);
    result := VopRead(m, file, u, block, fail);
    if result != Ok {
      assert !Loadable(m, file, offset, vaddr, memsize, filesize, fail) by {
        if size > 0 {
          ReachableParts(m, u.segflg, vaddr, 0, size, memsize);
        }
      }
      return;
    }
    if u.resid != 0 {
      return Enoexec;
    }
    result := FillRest(m, u, memsize - size, old(m.mem), vaddr, Contents(file, offset, size));
  }
}
