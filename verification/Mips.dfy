/**
 The MIPS I processor of sys161-1.14/mipseb/mips.c: TLB and address translation, the
 three-deep mode stack, unaligned loads and stores.  MipsCpu.dfy holds the fetch cycle.
 */

/** The software-managed TLB and the hardwired memory map. */
module MipsTlb {
  import opened Prelude

  const NTLB := 64
  const PAGE := 4096
  const KSEG2 := 0xc000_0000

  datatype Entry = Entry(global: bool, valid: bool, dirty: bool, nocache: bool, pfn: int, vpn: int, pid: int)

  predicate Matches(e: Entry, vpage: int, pid: int) {
    e.vpn == vpage && (e.pid == pid || e.global)
  }

  /** The test of check_tlb_dups: both entries could answer the same lookup. */
  predicate Conflict(a: Entry, b: Entry) {
    a.vpn == b.vpn && (a.global || b.global || a.pid == b.pid)
  }

  ghost predicate NoDups(tlb: seq<Entry>) {
    forall i, j :: 0 <= i < j < |tlb| ==> !Conflict(tlb[i], tlb[j])
  }

  /** The duplicate test is exact: it passes iff no lookup can match two entries. */
  lemma NoDupsIffUnambiguous(tlb: seq<Entry>)
    ensures NoDups(tlb) <==>
            forall i, j, vpage, pid ::
              0 <= i < |tlb| && 0 <= j < |tlb| && Matches(tlb[i], vpage, pid) && Matches(tlb[j], vpage, pid) ==> i == j
  {
    if !NoDups(tlb) {
      var i, j :| 0 <= i < j < |tlb| && Conflict(tlb[i], tlb[j]);
      var pid := if tlb[i].global then tlb[j].pid else tlb[i].pid;
      assert Matches(tlb[i], tlb[i].vpn, pid) && Matches(tlb[j], tlb[i].vpn, pid);
    } else {
      forall i, j, vpage, pid | 0 <= i < |tlb| && 0 <= j < |tlb| && Matches(tlb[i], vpage, pid) && Matches(tlb[j], vpage, pid)
        ensures i == j
      {
        assert Conflict(tlb[i], tlb[j]) && Conflict(tlb[j], tlb[i]);
      }
    }
  }

  /** findtlb's answer: the first match, or -1. */
  ghost predicate IsFirstMatch(tlb: seq<Entry>, vpage: int, pid: int, ix: int) {
    && -1 <= ix < |tlb|
    && (ix >= 0 ==> Matches(tlb[ix], vpage, pid))
    && forall i :: 0 <= i < |tlb| && Matches(tlb[i], vpage, pid) ==> 0 <= ix <= i
  }

  lemma {:induction false} FirstMatchExists(tlb: seq<Entry>, vpage: int, pid: int)
    ensures exists ix :: IsFirstMatch(tlb, vpage, pid, ix)
  {
    if tlb == [] {
      assert IsFirstMatch(tlb, vpage, pid, -1);
    } else if Matches(tlb[0], vpage, pid) {
      assert IsFirstMatch(tlb, vpage, pid, 0);
    } else {
      FirstMatchExists(tlb[1..], vpage, pid);
      var r :| IsFirstMatch(tlb[1..], vpage, pid, r);
      assert forall i :: 1 <= i < |tlb| ==> tlb[i] == tlb[1..][i - 1];
      assert IsFirstMatch(tlb, vpage, pid, if r < 0 then -1 else r + 1);
    }
  }

  lemma FirstMatchUnique(tlb: seq<Entry>, vpage: int, pid: int, i: int, j: int)
    requires IsFirstMatch(tlb, vpage, pid, i) && IsFirstMatch(tlb, vpage, pid, j)
    ensures i == j
  {
  }

  ghost function FirstMatch(tlb: seq<Entry>, vpage: int, pid: int): (ix: int)
    ensures IsFirstMatch(tlb, vpage, pid, ix)
  {
    FirstMatchExists(tlb, vpage, pid);
    var ix :| IsFirstMatch(tlb, vpage, pid, ix);
    ix
  }

  /** With no duplicates in the TLB the order of the scan is irrelevant. */
  lemma OrderIrrelevant(tlb: seq<Entry>, vpage: int, pid: int, i: int)
    requires NoDups(tlb) && 0 <= i < |tlb|
    ensures Matches(tlb[i], vpage, pid) <==> FirstMatch(tlb, vpage, pid) == i
  {
    NoDupsIffUnambiguous(tlb);
  }

  datatype Fault = TlbMod | TlbLoad | TlbStore | AddrLoad | AddrStore

  /** A translation: a physical address, or a fault and whether it takes the UTLB vector. */
  datatype Xlat = Ok(paddr: int) | Faulted(fault: Fault, utlb: bool)

  function PageOf(a: int): int { a - a % PAGE }

  ghost function Translate(user: bool, tlb: seq<Entry>, pid: int, vaddr: int, iswrite: bool): (x: Xlat)
    requires 0 <= vaddr < WORD
  {
    if (vaddr >= KSEG0 && user) || vaddr % 4 != 0 then
      Faulted(if iswrite then AddrStore else AddrLoad, false)
    else if KSEG0 <= vaddr < KSEG2 then
      Ok(vaddr % 0x2000_0000)
    else
      var ix := FirstMatch(tlb, PageOf(vaddr), pid);
      if ix < 0 then Faulted(if iswrite then TlbStore else TlbLoad, vaddr < KSEG0)
      else if !tlb[ix].valid then Faulted(if iswrite then TlbStore else TlbLoad, false)
      else if iswrite && !tlb[ix].dirty then Faulted(TlbMod, false)
      else Ok(tlb[ix].pfn + vaddr % PAGE)
  }

  /** debug_translatemem, the debugger's copy of the translation. */
  ghost function DebugTranslate(tlb: seq<Entry>, pid: int, vaddr: int, iswrite: bool): Option<int>
    requires 0 <= vaddr < WORD
  {
    if vaddr % 4 != 0 then None
    else if KSEG0 <= vaddr < KSEG2 then Some(vaddr % 0x2000_0000)
    else
      var ix := FirstMatch(tlb, PageOf(vaddr), pid);
      if ix < 0 || !tlb[ix].valid || (iswrite && !tlb[ix].dirty) then None
      else Some(tlb[ix].pfn + vaddr % PAGE)
  }

  /** The debugger sees what kernel mode sees, and what user mode sees below KSEG0, and no more. */
  lemma DebuggerAgrees(user: bool, tlb: seq<Entry>, pid: int, vaddr: int, iswrite: bool, pa: int)
    requires 0 <= vaddr < WORD
    ensures Translate(user, tlb, pid, vaddr, iswrite) == Ok(pa) <==>
            DebugTranslate(tlb, pid, vaddr, iswrite) == Some(pa) && (user ==> vaddr < KSEG0)
  {
  }

  ghost predicate EntryOk(e: Entry) {
    0 <= e.pfn < WORD && e.pfn % PAGE == 0 && 0 <= e.vpn < WORD && e.vpn % PAGE == 0
  }

  ghost predicate TlbOk(tlb: seq<Entry>) {
    |tlb| == NTLB && forall i :: 0 <= i < NTLB ==> EntryOk(tlb[i])
  }

  lemma OffsetInSegment(page: int, off: int)
    requires page % PAGE == 0 && 0 <= off < PAGE
    ensures (page + off) % 0x2000_0000 == page % 0x2000_0000 + off && (page % 0x2000_0000) % PAGE == 0
  {
    var k := page / PAGE;
    assert page == PAGE * k && page % 0x2000_0000 == PAGE * (k % 0x2_0000);
  }

  /** Translation is page by page: an aligned address goes where its page goes, offset kept. */
  lemma PageAtATime(user: bool, tlb: seq<Entry>, pid: int, page: int, off: int)
    requires TlbOk(tlb) && 0 <= page < WORD && page % PAGE == 0 && 0 <= off < PAGE && off % 4 == 0
    ensures 0 <= page + off < WORD && PageOf(page + off) == page && (page + off) % PAGE == off
    ensures var x := Translate(user, tlb, pid, page, false);
            && Translate(user, tlb, pid, page + off, false) == (if x.Ok? then Ok(x.paddr + off) else x)
            && (x.Ok? ==> x.paddr % PAGE == 0 && 0 <= x.paddr && x.paddr + off < WORD)
  {
    PageAndOffset(page, off);
    if KSEG0 <= page < KSEG2 {
      OffsetInSegment(page, off);
    } else {
      var ix := FirstMatch(tlb, page, pid);
      assert 0 <= ix ==> EntryOk(tlb[ix]);
    }
  }

  lemma OffsetKept(user: bool, tlb: seq<Entry>, pid: int, addr: int)
    requires TlbOk(tlb) && 0 <= addr < WORD && Translate(user, tlb, pid, addr, false).Ok?
    ensures addr % 4 == 0 && Translate(user, tlb, pid, addr, false).paddr % PAGE == addr % PAGE
  {
    if KSEG0 <= addr < KSEG2 {
      SegmentOffset(addr);
    } else {
      FrameOffset(tlb[FirstMatch(tlb, PageOf(addr), pid)].pfn, addr % PAGE);
    }
  }

  lemma SegmentOffset(addr: int)
    ensures addr % 0x2000_0000 % PAGE == addr % PAGE
  {
    var q, r := addr / 0x2000_0000, addr % 0x2000_0000;
    RemainderIs(addr, PAGE, 0x2_0000 * q + r / PAGE, r % PAGE);
  }

  lemma FrameOffset(frame: int, off: int)
    requires frame % PAGE == 0 && 0 <= off < PAGE
    ensures (frame + off) % PAGE == off
  {
    RemainderIs(frame + off, PAGE, frame / PAGE, off);
  }

  /** Stepping to the next word of the same page steps the translation likewise. */
  lemma NextInPage(user: bool, tlb: seq<Entry>, pid: int, a: int)
    requires TlbOk(tlb) && 0 <= a < WORD && (a + 4) % PAGE != 0 && Translate(user, tlb, pid, a, false).Ok?
    ensures a + 4 < WORD && PageOf(a + 4) == PageOf(a) && (a + 4) % PAGE == a % PAGE + 4
    ensures var pa := Translate(user, tlb, pid, a, false).paddr;
            Translate(user, tlb, pid, a + 4, false) == Ok(pa + 4) && PageOf(pa + 4) == PageOf(pa) && (pa + 4) % PAGE == pa % PAGE + 4
  {
    OffsetKept(user, tlb, pid, a);
    var page, off := PageOf(a), a % PAGE;
    assert page % PAGE == 0 by {
      RemainderIs(page, PAGE, a / PAGE, 0);
    }
    StepInPage(a);
    PageAtATime(user, tlb, pid, page, off);
    PageAtATime(user, tlb, pid, page, off + 4);
    var f := Translate(user, tlb, pid, page, false).paddr;
    FrameOffset(f, off);
    FrameOffset(f, off + 4);
  }

  lemma StepInPage(a: int)
    requires a % 4 == 0 && (a + 4) % PAGE != 0
    ensures (a + 4) % PAGE == a % PAGE + 4 < PAGE && a % PAGE % 4 == 0
  {
    var k, off := a / PAGE, a % PAGE;
    assert a == PAGE * k + off;
    FourDividesOffset(k, off);
    if off + 4 >= PAGE {
      RemainderIs(a + 4, PAGE, k + 1, off + 4 - PAGE);
    } else {
      RemainderIs(a + 4, PAGE, k, off + 4);
    }
  }

  lemma FourDividesOffset(k: int, off: int)
    requires (PAGE * k + off) % 4 == 0
    ensures off % 4 == 0
  {
    var q := (PAGE * k + off) / 4;
    TimesFour(q - 1024 * k, off);
  }

  lemma TimesFour(n: int, a: int)
    requires a == 4 * n
    ensures a % 4 == 0
  {
  }

  lemma PageAndOffset(page: int, off: int)
    requires 0 <= page < WORD && page % PAGE == 0 && 0 <= off < PAGE && off % 4 == 0
    ensures page + off < WORD && (page + off) % PAGE == off && (page + off) % 4 == 0 && page % 4 == 0
    ensures KSEG0 <= page < KSEG2 <==> KSEG0 <= page + off < KSEG2
    ensures KSEG0 <= page <==> KSEG0 <= page + off
  {
    var k, m := page / PAGE, off / 4;
    assert page == 4096 * k && off == 4 * m;
    assert k < 0x10_0000;
    TimesFour(1024 * k, page);
    TimesFour(1024 * k + m, page + off);
    if page < KSEG0 {
      assert k < 0x8_0000;
    } else if page < KSEG2 {
      assert k < 0xc_0000;
    }
  }
}

/** The three-level kernel/user and interrupt-enable stack of the status register. */
module MipsModes {
  datatype Mode = Mode(user: bool, irq: bool)
  datatype Stack = Stack(cur: Mode, prev: Mode, oldest: Mode)

  const KERNEL := Mode(false, false)

  /** What exception() does to the stack. */
  function Push(s: Stack): Stack { Stack(KERNEL, s.cur, s.prev) }

  /** What do_rfe() does to it; the oldest level stays. */
  function Pop(s: Stack): Stack { Stack(s.prev, s.oldest, s.oldest) }

  datatype Event = Exception | Rfe

  function Run(s: Stack, events: seq<Event>): Stack
    decreases |events|
  {
    if events == [] then s
    else Run(if events[0] == Exception then Push(s) else Pop(s), events[1..])
  }

  lemma {:induction false} RunAppend(s: Stack, a: seq<Event>, b: seq<Event>)
    ensures Run(s, a + b) == Run(Run(s, a), b)
    decreases |a|
  {
    if a == [] {
      assert a + b == b;
    } else {
      assert (a + b)[1..] == a[1..] + b;
      RunAppend(if a[0] == Exception then Push(s) else Pop(s), a[1..], b);
    }
  }

  /** A balanced history: exceptions, each handled to its RFE, one after another. */
  datatype History = Done | Handled(inner: History, rest: History)

  function Events(h: History): seq<Event> {
    match h
    case Done => []
    case Handled(inner, rest) => [Exception] + Events(inner) + [Rfe] + Events(rest)
  }

  function Depth(h: History): nat {
    match h
    case Done => 0
    case Handled(inner, rest) => var d := 1 + Depth(inner); if d > Depth(rest) then d else Depth(rest)
  }

  /** All that a balanced history of a given depth leaves of the stack. */
  function Aftermath(s: Stack, depth: nat): Stack {
    if depth == 0 then s
    else if depth == 1 then Stack(s.cur, s.prev, s.prev)
    else if depth == 2 then Stack(s.cur, s.cur, s.cur)
    else Stack(KERNEL, KERNEL, KERNEL)
  }

  lemma {:induction false} BalancedHistory(s: Stack, h: History)
    ensures Run(s, Events(h)) == Aftermath(s, Depth(h))
    decreases h
  {
    match h
    case Done =>
    case Handled(inner, rest) =>
      var inn := Events(inner);
      assert Events(h) == [Exception] + (inn + ([Rfe] + Events(rest)));
      RunAppend(s, [Exception], inn + ([Rfe] + Events(rest)));
      assert Run(s, [Exception]) == Push(s);
      RunAppend(Push(s), inn, [Rfe] + Events(rest));
      BalancedHistory(Push(s), inner);
      var t := Aftermath(Push(s), Depth(inner));
      RunAppend(t, [Rfe], Events(rest));
      assert Run(t, [Rfe]) == Pop(t);
      BalancedHistory(Pop(t), rest);
  }

  /**
   Handlers restore the interrupted mode exactly when they nest at most two deep, unless
   the interrupted mode was kernel mode with interrupts off to begin with.
   */
  lemma ModeRestored(s: Stack, h: History)
    ensures Run(s, Events(h)).cur == s.cur <==> Depth(h) <= 2 || s.cur == KERNEL
  {
    BalancedHistory(s, h);
  }

  /** User mode interrupted by an exception whose handler and whose handler's handler are interrupted: user mode is gone. */
  lemma ThreeDeep()
    ensures var h := Handled(Handled(Handled(Done, Done), Done), Done);
            var user := Stack(Mode(true, true), KERNEL, KERNEL);
            Depth(h) == 3 && Run(user, Events(h)).cur == KERNEL != user.cur
  {
    BalancedHistory(Stack(Mode(true, true), KERNEL, KERNEL), Handled(Handled(Handled(Done, Done), Done), Done));
  }
}

/** LWL, LWR, SWL and SWR on big-endian memory, as doload and dostore compute them. */
module MipsUnaligned {
  import opened Prelude

  /** Memory by aligned word address. */
  type Memory = int -> bv32

  function Aligned(a: int): int { a - a % 4 }

  /** Address arithmetic is modulo 2^32. */
  function Plus(a: int, k: int): int { (a + k) % WORD }

  /** Byte k of a word; byte 0 is the most significant. */
  function ByteOf(w: bv32, k: int): bv32 {
    if k == 0 then (w & 0xff000000) >> 24
    else if k == 1 then (w & 0x00ff0000) >> 16
    else if k == 2 then (w & 0x0000ff00) >> 8
    else w & 0x000000ff
  }

  function Byte(m: Memory, a: int): bv32 { ByteOf(m(Aligned(a)), a % 4) }

  function FromBytes(b0: bv32, b1: bv32, b2: bv32, b3: bv32): bv32 { (b0 << 24) | (b1 << 16) | (b2 << 8) | b3 }

  /** The word that starts at any address. */
  function WordAt(m: Memory, a: int): bv32 {
    FromBytes(Byte(m, a), Byte(m, Plus(a, 1)), Byte(m, Plus(a, 2)), Byte(m, Plus(a, 3)))
  }

  function Merge(into: bv32, from: bv32, mask: bv32): bv32 { (into & !mask) | (from & mask) }

  /** doload's S_WORDL and S_WORDR for an address that is k bytes into the word w. */
  function LoadL(k: int, reg: bv32, w: bv32): bv32 {
    if k == 0 then Merge(reg, w, 0xffffffff)
    else if k == 1 then Merge(reg, w << 8, 0xffffff00)
    else if k == 2 then Merge(reg, w << 16, 0xffff0000)
    else Merge(reg, w << 24, 0xff000000)
  }

  function LoadR(k: int, reg: bv32, w: bv32): bv32 {
    if k == 0 then Merge(reg, w >> 24, 0x000000ff)
    else if k == 1 then Merge(reg, w >> 16, 0x0000ffff)
    else if k == 2 then Merge(reg, w >> 8, 0x00ffffff)
    else Merge(reg, w, 0xffffffff)
  }

  /** dostore's S_WORDL and S_WORDR likewise. */
  function StoreL(k: int, w: bv32, val: bv32): bv32 {
    if k == 0 then Merge(w, val, 0xffffffff)
    else if k == 1 then Merge(w, val >> 8, 0x00ffffff)
    else if k == 2 then Merge(w, val >> 16, 0x0000ffff)
    else Merge(w, val >> 24, 0x000000ff)
  }

  function StoreR(k: int, w: bv32, val: bv32): bv32 {
    if k == 0 then Merge(w, val << 24, 0xff000000)
    else if k == 1 then Merge(w, val << 16, 0xffff0000)
    else if k == 2 then Merge(w, val << 8, 0xffffff00)
    else Merge(w, val, 0xffffffff)
  }

  function LoadLeft(m: Memory, a: int, reg: bv32): bv32 { LoadL(a % 4, reg, m(Aligned(a))) }
  function LoadRight(m: Memory, a: int, reg: bv32): bv32 { LoadR(a % 4, reg, m(Aligned(a))) }

  function Poke(m: Memory, a: int, w: bv32): Memory { x => if x == a then w else m(x) }

  function StoreLeft(m: Memory, a: int, val: bv32): Memory { Poke(m, Aligned(a), StoreL(a % 4, m(Aligned(a)), val)) }
  function StoreRight(m: Memory, a: int, val: bv32): Memory { Poke(m, Aligned(a), StoreR(a % 4, m(Aligned(a)), val)) }

  /** Where the four bytes from address a lie: the first 4 - k in one word, the rest in the next. */
  lemma FourBytes(a: int, j: int)
    requires 0 <= a < WORD && 0 <= j < 4
    ensures var k := a % 4;
            && 0 <= Plus(a, j) < WORD
            && Plus(a, j) % 4 == (if k + j < 4 then k + j else k + j - 4)
            && Aligned(Plus(a, j)) == (if k + j < 4 then Aligned(a) else Plus(Aligned(a), 4))
            && Aligned(a) != Plus(Aligned(a), 4)
  {
  }

  /** Any two words, read as eight bytes in a row. */
  function ByteOfTwo(w0: bv32, w1: bv32, n: int): bv32 {
    if n < 4 then ByteOf(w0, n) else ByteOf(w1, n - 4)
  }

  lemma Load0(reg: bv32, w: bv32)
    ensures LoadR(3, LoadL(0, reg, w), w) == FromBytes(ByteOf(w, 0), ByteOf(w, 1), ByteOf(w, 2), ByteOf(w, 3))
  {
  }

  lemma Load1(reg: bv32, w0: bv32, w1: bv32)
    ensures LoadR(0, LoadL(1, reg, w0), w1) == FromBytes(ByteOf(w0, 1), ByteOf(w0, 2), ByteOf(w0, 3), ByteOf(w1, 0))
  {
  }

  lemma Load2(reg: bv32, w0: bv32, w1: bv32)
    ensures LoadR(1, LoadL(2, reg, w0), w1) == FromBytes(ByteOf(w0, 2), ByteOf(w0, 3), ByteOf(w1, 0), ByteOf(w1, 1))
  {
  }

  lemma Load3(reg: bv32, w0: bv32, w1: bv32)
    ensures LoadR(2, LoadL(3, reg, w0), w1) == FromBytes(ByteOf(w0, 3), ByteOf(w1, 0), ByteOf(w1, 1), ByteOf(w1, 2))
  {
  }

  lemma LoadBytes(k: int, reg: bv32, w0: bv32, w1: bv32)
    requires 0 <= k < 4
    ensures LoadR(if k == 0 then 3 else k - 1, LoadL(k, reg, w0), if k == 0 then w0 else w1) ==
            FromBytes(ByteOfTwo(w0, w1, k), ByteOfTwo(w0, w1, k + 1), ByteOfTwo(w0, w1, k + 2), ByteOfTwo(w0, w1, k + 3))
  {
    if k == 0 {
      Load0(reg, w0);
    } else if k == 1 {
      Load1(reg, w0, w1);
    } else if k == 2 {
      Load2(reg, w0, w1);
    } else {
      Load3(reg, w0, w1);
    }
  }

  lemma ByteAlong(m: Memory, a: int, j: int)
    requires 0 <= a < WORD && 0 <= j < 4
    ensures Byte(m, Plus(a, j)) == ByteOfTwo(m(Aligned(a)), m(Plus(Aligned(a), 4)), a % 4 + j)
  {
    FourBytes(a, j);
  }

  lemma WordAlong(m: Memory, a: int)
    requires 0 <= a < WORD
    ensures var k, w0, w1 := a % 4, m(Aligned(a)), m(Plus(Aligned(a), 4));
            WordAt(m, a) == FromBytes(ByteOfTwo(w0, w1, k), ByteOfTwo(w0, w1, k + 1), ByteOfTwo(w0, w1, k + 2), ByteOfTwo(w0, w1, k + 3))
  {
    assert Plus(a, 0) == a;
    ByteAlong(m, a, 0);
    ByteAlong(m, a, 1);
    ByteAlong(m, a, 2);
    ByteAlong(m, a, 3);
  }

  lemma LastByte(m: Memory, a: int, reg: bv32)
    requires 0 <= a < WORD
    ensures var k := a % 4;
            LoadRight(m, Plus(a, 3), reg) == LoadR(if k == 0 then 3 else k - 1, reg, if k == 0 then m(Aligned(a)) else m(Plus(Aligned(a), 4)))
  {
    FourBytes(a, 3);
  }

  /** LWL at a, then LWR at a + 3, loads the word at a into any register, whatever its alignment. */
  lemma UnalignedLoad(m: Memory, a: int, reg: bv32)
    requires 0 <= a < WORD
    ensures LoadRight(m, Plus(a, 3), LoadLeft(m, a, reg)) == WordAt(m, a)
  {
    WordAlong(m, a);
    LastByte(m, a, LoadLeft(m, a, reg));
    LoadBytes(a % 4, reg, m(Aligned(a)), m(Plus(Aligned(a), 4)));
  }

  lemma Store0(w: bv32, val: bv32)
    ensures var v := StoreR(3, StoreL(0, w, val), val);
            ByteOf(v, 0) == ByteOf(val, 0) && ByteOf(v, 1) == ByteOf(val, 1) && ByteOf(v, 2) == ByteOf(val, 2) && ByteOf(v, 3) == ByteOf(val, 3)
  {
  }

  lemma Store1(w0: bv32, w1: bv32, val: bv32)
    ensures var v0, v1 := StoreL(1, w0, val), StoreR(0, w1, val);
            && ByteOf(v0, 0) == ByteOf(w0, 0) && ByteOf(v0, 1) == ByteOf(val, 0) && ByteOf(v0, 2) == ByteOf(val, 1) && ByteOf(v0, 3) == ByteOf(val, 2)
            && ByteOf(v1, 0) == ByteOf(val, 3) && ByteOf(v1, 1) == ByteOf(w1, 1) && ByteOf(v1, 2) == ByteOf(w1, 2) && ByteOf(v1, 3) == ByteOf(w1, 3)
  {
  }

  lemma Store2(w0: bv32, w1: bv32, val: bv32)
    ensures var v0, v1 := StoreL(2, w0, val), StoreR(1, w1, val);
            && ByteOf(v0, 0) == ByteOf(w0, 0) && ByteOf(v0, 1) == ByteOf(w0, 1) && ByteOf(v0, 2) == ByteOf(val, 0) && ByteOf(v0, 3) == ByteOf(val, 1)
            && ByteOf(v1, 0) == ByteOf(val, 2) && ByteOf(v1, 1) == ByteOf(val, 3) && ByteOf(v1, 2) == ByteOf(w1, 2) && ByteOf(v1, 3) == ByteOf(w1, 3)
  {
  }

  lemma Store3(w0: bv32, w1: bv32, val: bv32)
    ensures var v0, v1 := StoreL(3, w0, val), StoreR(2, w1, val);
            && ByteOf(v0, 0) == ByteOf(w0, 0) && ByteOf(v0, 1) == ByteOf(w0, 1) && ByteOf(v0, 2) == ByteOf(w0, 2) && ByteOf(v0, 3) == ByteOf(val, 0)
            && ByteOf(v1, 0) == ByteOf(val, 1) && ByteOf(v1, 1) == ByteOf(val, 2) && ByteOf(v1, 2) == ByteOf(val, 3) && ByteOf(v1, 3) == ByteOf(w1, 3)
  {
  }

  function SecondWord(k: int, w0: bv32, w1: bv32, val: bv32): bv32 {
    if k == 0 then w1 else StoreR(k - 1, w1, val)
  }

  function FirstWord(k: int, w: bv32, val: bv32): bv32 {
    if k == 0 then StoreR(3, StoreL(0, w, val), val) else StoreL(k, w, val)
  }

  /** Byte n of the two words after the store: the value's bytes from k on, the old ones elsewhere. */
  ghost predicate StoredAt(k: int, v0: bv32, v1: bv32, w0: bv32, w1: bv32, val: bv32, n: int)
    requires 0 <= k < 4 && 0 <= n < 8
  {
    ByteOfTwo(v0, v1, n) == if k <= n < k + 4 then ByteOf(val, n - k) else ByteOfTwo(w0, w1, n)
  }

  lemma StoreBytes0(v0: bv32, w0: bv32, w1: bv32, val: bv32, n: int)
    requires 0 <= n < 8
    requires ByteOf(v0, 0) == ByteOf(val, 0) && ByteOf(v0, 1) == ByteOf(val, 1) && ByteOf(v0, 2) == ByteOf(val, 2) && ByteOf(v0, 3) == ByteOf(val, 3)
    ensures StoredAt(0, v0, w1, w0, w1, val, n)
  {
  }

  lemma StoreBytes1(v0: bv32, v1: bv32, w0: bv32, w1: bv32, val: bv32, n: int)
    requires 0 <= n < 8
    requires ByteOf(v0, 0) == ByteOf(w0, 0) && ByteOf(v0, 1) == ByteOf(val, 0) && ByteOf(v0, 2) == ByteOf(val, 1) && ByteOf(v0, 3) == ByteOf(val, 2)
    requires ByteOf(v1, 0) == ByteOf(val, 3) && ByteOf(v1, 1) == ByteOf(w1, 1) && ByteOf(v1, 2) == ByteOf(w1, 2) && ByteOf(v1, 3) == ByteOf(w1, 3)
    ensures StoredAt(1, v0, v1, w0, w1, val, n)
  {
  }

  lemma StoreBytes2(v0: bv32, v1: bv32, w0: bv32, w1: bv32, val: bv32, n: int)
    requires 0 <= n < 8
    requires ByteOf(v0, 0) == ByteOf(w0, 0) && ByteOf(v0, 1) == ByteOf(w0, 1) && ByteOf(v0, 2) == ByteOf(val, 0) && ByteOf(v0, 3) == ByteOf(val, 1)
    requires ByteOf(v1, 0) == ByteOf(val, 2) && ByteOf(v1, 1) == ByteOf(val, 3) && ByteOf(v1, 2) == ByteOf(w1, 2) && ByteOf(v1, 3) == ByteOf(w1, 3)
    ensures StoredAt(2, v0, v1, w0, w1, val, n)
  {
  }

  lemma StoreBytes3(v0: bv32, v1: bv32, w0: bv32, w1: bv32, val: bv32, n: int)
    requires 0 <= n < 8
    requires ByteOf(v0, 0) == ByteOf(w0, 0) && ByteOf(v0, 1) == ByteOf(w0, 1) && ByteOf(v0, 2) == ByteOf(w0, 2) && ByteOf(v0, 3) == ByteOf(val, 0)
    requires ByteOf(v1, 0) == ByteOf(val, 1) && ByteOf(v1, 1) == ByteOf(val, 2) && ByteOf(v1, 2) == ByteOf(val, 3) && ByteOf(v1, 3) == ByteOf(w1, 3)
    ensures StoredAt(3, v0, v1, w0, w1, val, n)
  {
  }

  lemma StoreBytes(k: int, w0: bv32, w1: bv32, val: bv32, n: int)
    requires 0 <= k < 4 && 0 <= n < 8
    ensures StoredAt(k, FirstWord(k, w0, val), SecondWord(k, w0, w1, val), w0, w1, val, n)
  {
    if k == 0 {
      Store0(w0, val);
      StoreBytes0(FirstWord(0, w0, val), w0, w1, val, n);
    } else if k == 1 {
      Store1(w0, w1, val);
      StoreBytes1(StoreL(1, w0, val), StoreR(0, w1, val), w0, w1, val, n);
    } else if k == 2 {
      Store2(w0, w1, val);
      StoreBytes2(StoreL(2, w0, val), StoreR(1, w1, val), w0, w1, val, n);
    } else {
      Store3(w0, w1, val);
      StoreBytes3(StoreL(3, w0, val), StoreR(2, w1, val), w0, w1, val, n);
    }
  }

  function StoreWord(m: Memory, a: int, val: bv32): Memory {
    StoreRight(StoreLeft(m, a, val), Plus(a, 3), val)
  }

  lemma StoreWords(m: Memory, a: int, val: bv32, x: int)
    requires 0 <= a < WORD
    ensures var A, k := Aligned(a), a % 4; var B := Plus(A, 4);
            StoreWord(m, a, val)(x) ==
            if x == A then FirstWord(k, m(A), val) else if x == B then SecondWord(k, m(A), m(B), val) else m(x)
  {
    FourBytes(a, 3);
  }

  /** SWL at a, then SWR at a + 3, writes the four bytes from a ... */
  lemma UnalignedStore(m: Memory, a: int, val: bv32, j: int)
    requires 0 <= a < WORD && 0 <= j < 4
    ensures Byte(StoreWord(m, a, val), Plus(a, j)) == ByteOf(val, j)
  {
    var A, B, k := Aligned(a), Plus(Aligned(a), 4), a % 4;
    FourBytes(a, j);
    ByteAlong(StoreWord(m, a, val), a, j);
    StoreWords(m, a, val, A);
    StoreWords(m, a, val, B);
    StoreBytes(k, m(A), m(B), val, k + j);
  }

  /** ... and no other byte. */
  lemma UnalignedStoreFrame(m: Memory, a: int, val: bv32, b: int)
    requires 0 <= a < WORD && 0 <= b < WORD
    requires forall j :: 0 <= j < 4 ==> b != Plus(a, j)
    ensures Byte(StoreWord(m, a, val), b) == Byte(m, b)
  {
    var A, B, k := Aligned(a), Plus(Aligned(a), 4), a % 4;
    StoreWords(m, a, val, Aligned(b));
    FourBytes(a, 0);
    if Aligned(b) == A {
      if k <= b % 4 {
        SameWord(a, b);
        assert false;
      }
      StoreBytes(k, m(A), m(B), val, b % 4);
    } else if Aligned(b) == B {
      if b % 4 < k {
        NextWord(a, b);
        assert false;
      }
      StoreBytes(k, m(A), m(B), val, 4 + b % 4);
    }
  }

  lemma SameWord(a: int, b: int)
    requires 0 <= a < WORD && 0 <= b < WORD && Aligned(b) == Aligned(a) && a % 4 <= b % 4
    ensures b == Plus(a, b % 4 - a % 4)
  {
  }

  lemma NextWord(a: int, b: int)
    requires 0 <= a < WORD && 0 <= b < WORD && Aligned(b) == Plus(Aligned(a), 4) && b % 4 < a % 4
    ensures b == Plus(a, 4 + b % 4 - a % 4)
  {
  }

  /** Storing a word and loading it back is the identity for every alignment. */
  lemma UnalignedRoundTrip(m: Memory, a: int, val: bv32, reg: bv32)
    requires 0 <= a < WORD
    ensures var m' := StoreWord(m, a, val); LoadRight(m', Plus(a, 3), LoadLeft(m', a, reg)) == val
  {
    assert Plus(a, 0) == a;
    UnalignedLoad(StoreWord(m, a, val), a, reg);
    UnalignedStore(m, a, val, 0);
    UnalignedStore(m, a, val, 1);
    UnalignedStore(m, a, val, 2);
    UnalignedStore(m, a, val, 3);
    BytesMakeWord(val);
  }

  lemma BytesMakeWord(w: bv32)
    ensures FromBytes(ByteOf(w, 0), ByteOf(w, 1), ByteOf(w, 2), ByteOf(w, 3)) == w
  {
  }
}
