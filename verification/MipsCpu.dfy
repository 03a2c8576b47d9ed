/**
 The fetch cycle of sys161-1.14/mipseb/mips.c.  The processor never translates the pc when
 it fetches: it keeps the page and offset of pc and of nextpc ready, and every operation
 that can move them is responsible for keeping them right.
 */
module MipsCpu {
  import opened Prelude
  import opened MipsTlb
  import M = MipsModes

  /** A page the processor can execute from; NoPage is the null pointer. */
  datatype Page = NoPage | Ram(off: int) | Rom

  const RFE: bv32 := 0x42000010

  const EX_MOD := 1
  const EX_TLBL := 2
  const EX_TLBS := 3
  const EX_ADEL := 4
  const EX_ADES := 5
  const EX_IBE := 6
  const EX_DBE := 7
  const EX_RI := 10
  const EX_CPU := 11
  const EX_IRQ := 0

  function CodeOf(f: Fault): int {
    match f
    case TlbMod => EX_MOD
    case TlbLoad => EX_TLBL
    case TlbStore => EX_TLBS
    case AddrLoad => EX_ADEL
    case AddrStore => EX_ADES
  }

  /** bus_mem_map and bootrom_map behind mapmem's physical memory layout. */
  function MapMem(ramsize: int, paddr: int): Page {
    var p := PageOf(paddr);
    if p < 0x1fc0_0000 then RamPage(ramsize, p)
    else if p < 0x1fe0_0000 then (if p - 0x1fc0_0000 >= PAGE then NoPage else Rom)
    else if p < 0x2000_0000 then NoPage
    else RamPage(ramsize, p - 0x40_0000)
  }

  function RamPage(ramsize: int, off: int): Page {
    if off >= ramsize then NoPage else Ram(off)
  }

  /** mx_copz's dispatch on a coprocessor instruction. */
  datatype CopOp = NotCop | Unusable | Tlbr | Tlbwi | Tlbwr | Tlbp | Rfe | Wait | Reserved | MoveFrom(reg: bv32) | MoveTo(reg: bv32)

  function DecodeCop(insn: bv32): CopOp {
    var op := (insn & 0xfc000000) >> 26;
    if op < 16 || op > 19 then NotCop
    else if (insn & 0x0c000000) >> 26 != 0 then Unusable
    else
      var copop := (insn & 0x03e00000) >> 21;
      if copop & 0x10 != 0 then
        var funct := insn & 0x01ffffff;
        if funct == 1 then Tlbr
        else if funct == 2 then Tlbwi
        else if funct == 6 then Tlbwr
        else if funct == 8 then Tlbp
        else if funct == 16 then Rfe
        else if funct == 32 then Wait
        else Reserved
      else if copop == 0 then MoveFrom((insn & 0x0000f800) >> 11)
      else if copop == 4 then MoveTo((insn & 0x0000f800) >> 11)
      else if copop == 2 || copop == 6 || copop == 8 || copop == 12 then Unusable
      else Reserved
  }

  /** The decoder and the fetch code agree on which word is an RFE: only FULLOP_RFE is. */
  lemma OnlyFullopRfe(insn: bv32)
    ensures DecodeCop(insn) == Rfe <==> insn == RFE
  {
  }

  /** What an instruction that is not for a coprocessor may do to the control state. */
  datatype Effect =
    | Alu
    | Branch(target: int)
    | Load(vaddr: int, iook: bool)
    | Store(vaddr: int, iook: bool, value: bv32)
    | StorePart(vaddr: int, readok: bool, writeok: bool, value: bv32)
    | Trap(code: int)
    | Stall
    | Breakpoint

  predicate InWord(a: int) { 0 <= a < WORD }

  function WordAt(addr: int): int { addr - addr % 4 }

  function After(addr: int): int { (addr + 4) % WORD }

  function Vector(boot: bool, utlb: bool): int {
    if utlb then (if boot then 0xbfc0_0100 else 0x8000_0000)
    else (if boot then 0xbfc0_0180 else 0x8000_0080)
  }

  predicate IsVector(pc: int) {
    pc == 0xbfc0_0100 || pc == 0xbfc0_0180 || pc == 0x8000_0000 || pc == 0x8000_0080
  }

  /** The handler for misses on user addresses is 0x80 below the general one, at the start of RAM once the boot ROM is done with. */
  lemma VectorLayout(boot: bool)
    ensures Vector(boot, false) == Vector(boot, true) + 0x80 && Vector(false, true) == KSEG0 && KSEG0 <= Vector(boot, true) < KSEG2
  {
  }

  /** Vectors are at the start of the boot ROM or of RAM. */
  function VectorPage(pc: int): Page { if pc >= 0xbfc0_0000 then Rom else Ram(0) }

  /** A vector and the word after it translate to where the handler's page is. */
  lemma VectorTranslates(ramsize: int, tlb: seq<Entry>, pid: int, vector: int, addr: int)
    requires PAGE <= ramsize && IsVector(vector) && (addr == vector || addr == vector + 4)
    ensures var x := Translate(false, tlb, pid, addr, false);
            x.Ok? && MapMem(ramsize, x.paddr) == VectorPage(vector) && x.paddr % PAGE == VectorOffset(vector) + (addr - vector)
  {
  }

  function VectorOffset(pc: int): int { if pc >= 0xbfc0_0000 then pc - 0xbfc0_0000 else pc - 0x8000_0000 }

  /** The exception registers: cause (delay slot, code, software interrupts), bad address, context, epc. */
  datatype ExRegs = ExRegs(bd: bool, code: int, soft: int, vaddr: int, context: int, epc: int)

  class Cpu {
    const ramsize: int
    var ram: map<int, bv32>

    var pc: int
    var nextpc: int
    var expc: int
    var pcpage: Page
    var pcoff: int
    var nextpcpage: Page
    var nextpcoff: int
    var jumping: bool
    var inJumpDelay: bool

    var tlb: seq<Entry>
    var tlbentry: Entry
    var tlbindex: int
    var tlbpf: bool
    var tlbrandom: int

    var modes: M.Stack
    var boot: bool
    var ex: ExRegs

    /** The address space ids under which the pages of pc and nextpc were looked up. */
    ghost var pcPid: int
    ghost var nextPid: int

    /** Exceptions and RFEs so far; and whether user mode was last entered by writing the status register. */
    ghost var turns: nat
    ghost var stale: bool

    /** mips_init, on a machine with the given amount of RAM. */
    constructor (ramsize: int, ram: map<int, bv32>)
      requires PAGE <= ramsize <= 0x100_0000 && ramsize % PAGE == 0
      ensures Ready() && !stale && !modes.cur.user && NoDups(tlb) && pc == 0xbfc0_0000 && nextpc == 0xbfc0_0004
      ensures this.ramsize == ramsize && this.ram == ram && tlb == seq(NTLB, i => ResetEntry(i))
      ensures pcpage == Rom && tlbentry.pid == 0 && tlbindex == 0
    {
      this.ramsize, this.ram := ramsize, ram;
      pc, nextpc, expc := 0xbfc0_0000, 0xbfc0_0004, 0;
      pcpage, pcoff, nextpcpage, nextpcoff := NoPage, 0, NoPage, 0;
      jumping, inJumpDelay := false, false;
      tlb := seq(NTLB, i => ResetEntry(i));
      tlbentry := ResetEntry(NTLB);
      tlbindex, tlbpf, tlbrandom := 0, false, 55;
      modes, boot := M.Stack(M.KERNEL, M.KERNEL, M.KERNEL), true;
      ex := ExRegs(false, 0, 0, 0, 0, 0);
      stale, turns, pcPid, nextPid := false, 0, 0, 0;
      new;
      assert Reaches(pc) && Reaches(nextpc);
      var ok, _ := PrecomputeBoth();
    }

    /** bus_use_map */
    function Fetch(page: Page, off: int): bv32
      reads this
    {
      match page
      case Ram(base) => if base + off in ram then ram[base + off] else 0
      case Rom => if off == 0xffc then 0x0000000d else 0
      case NoPage => 0
    }

    ghost predicate Env()
      reads this
    {
      && TlbOk(tlb) && EntryOk(tlbentry)
      && PAGE <= ramsize <= 0x100_0000 && ramsize % PAGE == 0
      && 0 <= tlbindex < NTLB && 0 <= tlbrandom && InWord(expc)
      && (stale ==> modes.cur.user)
    }

    /** page and off are what a fresh translation of addr gives right now. */
    ghost predicate Cached(page: Page, off: int, addr: int)
      reads this
    {
      && InWord(addr)
      && var x := Translate(modes.cur.user, tlb, tlbentry.pid, addr, false);
         x.Ok? && page == MapMem(ramsize, x.paddr) && page != NoPage && off == x.paddr % PAGE
    }

    ghost predicate Aligned()
      reads this
    {
      InWord(pc) && InWord(nextpc) && pc % 4 == 0 && nextpc % 4 == 0
    }

    /** No fetch goes through a null page: nextpc's page is missing only while an RFE is next. */
    ghost predicate Fetchable()
      reads this
    {
      && Aligned()
      && pcpage != NoPage && pcoff == pc % PAGE
      && (nextpcpage == NoPage ==> Fetch(pcpage, pcoff) == RFE)
      && (nextpcpage != NoPage ==> nextpcoff == nextpc % PAGE)
    }

    /** page and off are where kernel mode finds addr under address space id pid. */
    ghost predicate Found(page: Page, off: int, addr: int, pid: int)
      reads this
    {
      InWord(addr) && Located(ramsize, tlb, page, off, addr, pid)
    }

    /** Both pages are where their addresses were found when they were last looked up. */
    ghost predicate Agrees()
      reads this
    {
      && Found(pcpage, pcoff, pc, pcPid)
      && (nextpcpage != NoPage ==> Found(nextpcpage, nextpcoff, nextpc, nextPid))
    }

    /** User mode entered by RFE: both lookups were made in it. */
    ghost predicate UserSettled()
      reads this
    {
      && pc < KSEG0 && pcPid == tlbentry.pid
      && (nextpcpage != NoPage ==> nextpc < KSEG0 && nextPid == tlbentry.pid)
    }

    ghost predicate Valid()
      reads this
    {
      Env() && Fetchable() && Agrees() && (modes.cur.user && !stale ==> UserSettled())
    }

    /** Both pages are in place and agree with a fresh translation. */
    ghost predicate Settled()
      reads this
    {
      && Cached(pcpage, pcoff, pc) && Cached(nextpcpage, nextpcoff, nextpc)
      && pcPid == nextPid == tlbentry.pid
    }

    twostate predicate ControlKept()
      reads this
    {
      unchanged(`pc, `nextpc, `expc, `jumping, `inJumpDelay, `modes, `boot, `ram, `stale, `turns, `tlb,
                `tlbindex, `tlbrandom, `ex)
      && tlbentry == old(tlbentry).(vpn := tlbentry.vpn)
    }

    /** An exception has been taken: the handler is next, and the old mode is on the stack. */
    twostate predicate Raised(code: int)
      reads this
    {
      && AtVector() && modes == M.Push(old(modes)) && !stale && turns == old(turns) + 1
      && expc == old(expc) && ex == ExRegs(old(inJumpDelay), 4 * code, old(ex.soft), ex.vaddr, ex.context, expc)
      && !jumping && !inJumpDelay
      && unchanged(`boot, `ram, `tlb, `tlbindex, `tlbrandom) && tlbentry == old(tlbentry).(vpn := tlbentry.vpn)
    }

    /** At most one exception has been taken, and the mode stack shows it; what is stale stays so until then. */
    twostate predicate Turned()
      reads this
    {
      && (turns == old(turns) || (turns == old(turns) + 1 && AtVector()))
      && modes == (if turns == old(turns) then old(modes) else M.Push(old(modes)))
      && (stale <==> old(stale) && turns == old(turns))
    }

    /** The TLB and the address space are untouched, and nothing has gone stale. */
    twostate predicate Steady()
      reads this
    {
      tlb == old(tlb) && tlbentry.pid == old(tlbentry.pid) && Turned()
    }

    /** findtlb */
    method FindTlb(vpage: int) returns (ix: int)
      ensures ix == FirstMatch(tlb, vpage, tlbentry.pid)
    {
      ix := 0;
      while ix < |tlb|
        invariant 0 <= ix <= |tlb|
        invariant forall i :: 0 <= i < ix ==> !Matches(tlb[i], vpage, tlbentry.pid)
      {
        if Matches(tlb[ix], vpage, tlbentry.pid) {
          FirstMatchUnique(tlb, vpage, tlbentry.pid, ix, FirstMatch(tlb, vpage, tlbentry.pid));
          return;
        }
        ix := ix + 1;
      }
      ix := -1;
      FirstMatchUnique(tlb, vpage, tlbentry.pid, ix, FirstMatch(tlb, vpage, tlbentry.pid));
    }

    /** A lookup of addr would succeed and find memory. */
    ghost predicate Reaches(addr: int)
      reads this
    {
      Reachable(ramsize, modes.cur.user, tlb, tlbentry.pid, addr)
    }

    /** All that decides the next instructions. */
    ghost function View(): Core
      reads this
    {
      Core(pc, nextpc, pcpage, pcoff, nextpcpage, nextpcoff, pcPid, nextPid, ram, tlb, tlbentry, tlbindex, modes, boot, ex, turns)
    }

    /** The handler is about to run in kernel mode, out of the page it is in. */
    ghost predicate AtVector()
      reads this
    {
      && !modes.cur.user && IsVector(pc) && nextpc == pc + 4
      && pcpage == nextpcpage == VectorPage(pc) && pcoff == VectorOffset(pc) && nextpcoff == pcoff + 4
      && pcPid == nextPid == tlbentry.pid
    }

    lemma VectorIsReady()
      requires Env() && AtVector()
      ensures Settled() && Ready() && Reaches(pc) && Reaches(nextpc)
    {
      VectorTranslates(ramsize, tlb, tlbentry.pid, pc, pc);
      VectorTranslates(ramsize, tlb, tlbentry.pid, pc, nextpc);
      SettledIsReady();
    }

    /** The exception vectors can always be looked up, and so can the word after each. */
    lemma VectorReaches(utlb: bool)
      requires PAGE <= ramsize && !modes.cur.user
      ensures Reaches(Vector(boot, utlb)) && Reaches(Vector(boot, utlb) + 4)
    {
    }

    /** translatemem's address computation, without the exception. */
    method LookUp(vaddr: int, iswrite: bool) returns (x: Xlat)
      requires Env() && InWord(vaddr)
      modifies this`tlbentry
      ensures Env() && tlbentry == old(tlbentry).(vpn := tlbentry.vpn)
      ensures x == Translate(modes.cur.user, tlb, old(tlbentry.pid), vaddr, iswrite)
    {
      if (vaddr >= KSEG0 && modes.cur.user) || vaddr % 4 != 0 {
        return Faulted(if iswrite then AddrStore else AddrLoad, false);
      }
      if KSEG0 <= vaddr < KSEG2 {
        return Ok(vaddr % 0x2000_0000);
      }
      var vpage, off := PageOf(vaddr), vaddr % PAGE;
      tlbentry := tlbentry.(vpn := vpage);
      var ix := FindTlb(vpage);
      if ix < 0 {
        return Faulted(if iswrite then TlbStore else TlbLoad, vaddr < KSEG0);
      }
      if !tlb[ix].valid {
        return Faulted(if iswrite then TlbStore else TlbLoad, false);
      }
      if iswrite && !tlb[ix].dirty {
        return Faulted(TlbMod, false);
      }
      return Ok(tlb[ix].pfn + off);
    }

    /** translatemem: translate, or take the exception that the translation calls for. */
    method TranslateMem(vaddr: int, iswrite: bool) returns (ok: bool, paddr: int, ghost code: int)
      requires Env() && InWord(vaddr)
      modifies this
      ensures Env()
      ensures var x := old(Translate(modes.cur.user, tlb, tlbentry.pid, vaddr, iswrite));
              if x.Ok? then ok && paddr == x.paddr && ControlKept() && unchanged(`pcpage, `pcoff, `nextpcpage, `nextpcoff, `pcPid, `nextPid)
              else !ok && code == CodeOf(x.fault) && Raised(code) && ex.vaddr == vaddr && pc == Vector(boot, x.utlb)
      decreases if Translate(modes.cur.user, tlb, tlbentry.pid, vaddr, iswrite).Ok? then 0 else 4
    {
      code := 0;
      var x := LookUp(vaddr, iswrite);
      if x.Ok? {
        return true, x.paddr, 0;
      }
      Exception(CodeOf(x.fault), x.utlb, vaddr);
      return false, 0, CodeOf(x.fault);
    }

    /** exception: roll the mode stack and start the handler; its own translations cannot fail. */
    method Exception(code: int, user: bool, vaddr: int)
      requires Env() && InWord(vaddr)
      modifies this
      ensures Env() && Raised(code) && ex.vaddr == vaddr && ex.context == ContextAt(old(ex.context), vaddr)
      ensures pc == Vector(boot, (code == EX_TLBL || code == EX_TLBS) && user) && nextpc == pc + 4
      decreases 3
    {
      ex := ExRegs(inJumpDelay, 4 * code, ex.soft, vaddr, ContextAt(ex.context, vaddr), expc);
      jumping, inJumpDelay := false, false;
      modes, stale, turns := M.Stack(M.KERNEL, modes.cur, modes.prev), false, turns + 1;
      EnterVector((code == EX_TLBL || code == EX_TLBS) && user);
    }

    /** exception's jump to the handler. */
    method EnterVector(utlb: bool)
      requires Env() && !modes.cur.user
      modifies this
      ensures Env() && AtVector() && !stale && pc == Vector(boot, utlb) && nextpc == pc + 4
      ensures tlbentry == old(tlbentry).(vpn := tlbentry.vpn)
      ensures unchanged(`expc, `jumping, `inJumpDelay, `modes, `boot, `ram, `turns, `tlb, `tlbindex, `tlbrandom, `ex)
      decreases 2
    {
      pc := Vector(boot, utlb);
      nextpc := pc + 4;
      VectorReaches(utlb);
      var _, _ := PrecomputePc();
      VectorCached(pcpage, pcoff, pc, pc);
      var _, _ := PrecomputeNextPc();
      VectorCached(nextpcpage, nextpcoff, pc, nextpc);
    }

    lemma VectorCached(page: Page, off: int, vector: int, addr: int)
      requires !modes.cur.user && IsVector(vector) && (addr == vector || addr == vector + 4) && Cached(page, off, addr)
      ensures page == VectorPage(vector) && off == VectorOffset(vector) + (addr - vector)
    {
    }

    method PrecomputePc() returns (ok: bool, ghost code: int)
      requires Env() && InWord(pc)
      modifies this
      ensures Env()
      ensures ok <==> old(Reaches(pc))
      ensures if ok then ControlKept() && unchanged(`nextpcpage, `nextpcoff, `nextPid) && Cached(pcpage, pcoff, pc) && pcPid == tlbentry.pid
              else Raised(code)
      decreases if Reaches(pc) then 1 else 5
    {
      var physpc;
      ok, physpc, code := TranslateMem(pc, false);
      if !ok {
        return;
      }
      pcpage := MapMem(ramsize, physpc);
      if pcpage == NoPage {
        Exception(EX_IBE, false, 0);
        assert pcpage != NoPage;
        return false, EX_IBE;
      }
      pcoff, pcPid := physpc % PAGE, tlbentry.pid;
    }

    method PrecomputeNextPc() returns (ok: bool, ghost code: int)
      requires Env() && InWord(nextpc)
      modifies this
      ensures Env()
      ensures ok <==> old(Reaches(nextpc))
      ensures if ok then ControlKept() && unchanged(`pcpage, `pcoff, `pcPid) && Cached(nextpcpage, nextpcoff, nextpc) && nextPid == tlbentry.pid
              else Raised(code)
      decreases if Reaches(nextpc) then 1 else 5
    {
      var physnext;
      ok, physnext, code := TranslateMem(nextpc, false);
      if !ok {
        return;
      }
      nextpcpage := MapMem(ramsize, physnext);
      if nextpcpage == NoPage {
        Exception(EX_IBE, false, 0);
        assert nextpcpage != NoPage;
        return false, EX_IBE;
      }
      nextpcoff, nextPid := physnext % PAGE, tlbentry.pid;
    }

    /** A page is good for addr now exactly if it was found under an id that finds it now, and the mode may use addr. */
    lemma CachedIff(page: Page, off: int, addr: int)
      ensures Cached(page, off, addr) <==> Found(page, off, addr, tlbentry.pid) && (modes.cur.user ==> addr < KSEG0)
    {
    }

    lemma CachedOffset(page: Page, off: int, addr: int)
      requires Env() && Cached(page, off, addr)
      ensures addr % 4 == 0 && off == addr % PAGE
    {
      OffsetKept(modes.cur.user, tlb, tlbentry.pid, addr);
    }

    /** Valid, with both pages in place. */
    ghost predicate Ready()
      reads this
    {
      Valid() && nextpcpage != NoPage
    }

    lemma SettledIsReady()
      requires Env() && Settled()
      ensures Ready()
    {
      CachedOffset(pcpage, pcoff, pc);
      CachedOffset(nextpcpage, nextpcoff, nextpc);
    }

    /** Look both translations up again; if one fails, its exception settles them. */
    method PrecomputeBoth() returns (ok: bool, ghost code: int)
      requires Env() && InWord(pc) && InWord(nextpc)
      modifies this
      ensures Env() && Settled() && Ready()
      ensures ok <==> old(Reaches(pc) && Reaches(nextpc))
      ensures if ok then ControlKept() else Raised(code)
    {
      ok, code := LookUpBoth();
      if ok {
        SettledIsReady();
      } else {
        VectorIsReady();
      }
    }

    /** cpu_set_entrypoint: an entry point that is not aligned or cannot be looked up is complained of. */
    method EntryPoint(addr: int) returns (hung: bool)
      requires Env() && InWord(addr)
      modifies this
      ensures Settled() && Ready()
      ensures hung <==> addr % 4 != 0 || !old(Reaches(WordAt(addr)) && Reaches(After(WordAt(addr))))
      ensures EnteredAt(WordAt(addr), After(WordAt(addr)), old(Reaches(WordAt(addr)) && Reaches(After(WordAt(addr)))))
    {
      var ok := GoTo(WordAt(addr), After(WordAt(addr)));
      hung := addr % 4 != 0 || !ok;
    }

    method GoTo(start: int, after: int) returns (ok: bool)
      requires Env() && InWord(start) && InWord(after)
      modifies this
      ensures Settled() && Ready() && (ok <==> old(Reaches(start) && Reaches(after))) && EnteredAt(start, after, ok)
    {
      expc, pc, nextpc := start, start, after;
      ghost var code;
      ok, code := PrecomputeBoth();
    }

    /** The program starts where it should, or with an exception there. */
    twostate predicate EnteredAt(start: int, after: int, ok: bool)
      reads this
    {
      && unchanged(`ram, `tlb, `tlbindex) && tlbentry.pid == old(tlbentry.pid) && expc == start
      && if ok then pc == start && nextpc == after && unchanged(`modes, `turns, `stale)
         else AtVector() && modes == M.Push(old(modes)) && ex.epc == start && !stale
    }

    method LookUpBoth() returns (ok: bool, ghost code: int)
      requires Env() && InWord(pc) && InWord(nextpc)
      modifies this
      ensures Env() && (ok <==> old(Reaches(pc) && Reaches(nextpc)))
      ensures if ok then ControlKept() && Settled() else Raised(code)
    {
      ok, code := PrecomputePc();
      if ok {
        ok, code := PrecomputeNextPc();
      } else {
        RecheckVector();
      }
    }

    /** Looking nextpc up once more after an exception changes nothing. */
    method RecheckVector()
      requires Env() && AtVector()
      modifies this
      ensures Env() && AtVector() && ControlKept()
    {
      VectorIsReady();
      var _, _ := PrecomputeNextPc();
      VectorCached(nextpcpage, nextpcoff, pc, nextpc);
    }

    /** An RFE: on in the popped mode, if that finds the next two words, else an exception there. */
    twostate predicate Returned()
      reads this
      requires InWord(old(pc)) && InWord(old(nextpc))
    {
      && tlb == old(tlb) && tlbentry.pid == old(tlbentry.pid) && !stale
      && var m := M.Pop(old(modes));
         if ReachableTwo(ramsize, m.cur.user, old(tlb), old(tlbentry.pid), old(pc), old(nextpc))
         then modes == m && pc == old(pc) && nextpc == old(nextpc) && Settled() && turns == old(turns) + 1
         else modes == M.Push(m) && AtVector() && ex.epc == old(pc) && turns == old(turns) + 2
    }

    /** do_rfe: pop the mode stack and look up the next two instructions in the new mode. */
    method DoRfe() returns (ok: bool, ghost code: int)
      requires Env() && InWord(pc) && InWord(nextpc) && !modes.cur.user
      modifies this
      ensures Ready() && Returned()
    {
      modes, turns := M.Stack(modes.prev, modes.oldest, modes.oldest), turns + 1;
      inJumpDelay := false;
      expc := pc;
      ok, code := PrecomputeBoth();
    }

    /** abranch: aim nextpc at addr, deferring its translation if the delay slot is an RFE. */
    method ABranch(addr: int)
      requires Ready() && InWord(addr)
      modifies this
      ensures Valid() && Steady()
      ensures addr % 4 == 0 && old(Fetch(pcpage, pcoff)) == RFE ==>
                nextpc == addr && nextpcpage == NoPage && modes == old(modes)
      ensures if addr % 4 == 0 && (old(Fetch(pcpage, pcoff)) == RFE || old(Reaches(addr)))
              then pc == old(pc) && nextpc == addr && jumping && modes == old(modes) && pcPid == old(pcPid)
              else !jumping && modes == M.Push(old(modes)) && turns > old(turns)
      ensures addr % 4 != 0 ==> ex.code == 4 * EX_ADEL
      ensures jumping && nextpcpage != NoPage ==>
                && Cached(nextpcpage, nextpcoff, nextpc) && nextPid == tlbentry.pid && tlbentry == old(tlbentry).(vpn := tlbentry.vpn)
                && unchanged(`pcpage, `pcoff, `ram, `tlb, `tlbindex, `turns, `boot, `ex)
      ensures old(Fetch(pcpage, pcoff)) != RFE ==> nextpcpage != NoPage
    {
      if addr % 4 != 0 {
        Exception(EX_ADEL, false, addr);
        VectorIsReady();
        return;
      }
      if Fetch(pcpage, pcoff) == RFE {
        nextpc := addr;
        jumping := true;
        nextpcpage := NoPage;
        nextpcoff := 0;
      } else {
        AimAhead(addr);
      }
    }

    method AimAhead(addr: int)
      requires Ready() && InWord(addr) && addr % 4 == 0
      modifies this
      ensures Ready() && Steady() && (jumping <==> old(Reaches(addr)))
      ensures if jumping
              then pc == old(pc) && nextpc == addr && modes == old(modes) && pcPid == old(pcPid)
                   && Cached(nextpcpage, nextpcoff, nextpc) && nextPid == tlbentry.pid && tlbentry == old(tlbentry).(vpn := tlbentry.vpn)
                   && unchanged(`pcpage, `pcoff, `ram, `tlb, `tlbindex, `turns, `boot, `ex)
              else modes == M.Push(old(modes)) && turns > old(turns)
    {
      nextpc := addr;
      jumping := true;
      var _ := LookAhead();
    }

    /** A jump or branch taken: abranch, and what it does when no RFE is next. */
    method Jump(addr: int)
      requires Ready() && InWord(addr)
      modifies this
      ensures Valid() && Steady()
      ensures old(Fetch(pcpage, pcoff)) != RFE ==> Ready() && Aimed(ramsize, old(View()), addr, View())
    {
      ABranch(addr);
    }

    /** All of Valid that does not concern nextpc. */
    ghost predicate HalfReady()
      reads this
    {
      && Env() && Aligned() && pcpage != NoPage && pcoff == pc % PAGE && Found(pcpage, pcoff, pc, pcPid)
      && (modes.cur.user && !stale ==> pc < KSEG0 && pcPid == tlbentry.pid)
    }

    /** Look nextpc up after it has been moved. */
    method LookAhead() returns (ok: bool)
      requires HalfReady()
      modifies this
      ensures Ready() && Steady() && (ok <==> old(Reaches(nextpc)))
      ensures ok ==> Cached(nextpcpage, nextpcoff, nextpc) && nextPid == tlbentry.pid
      ensures if ok then ControlKept() && unchanged(`pcpage, `pcoff, `pcPid) else modes == M.Push(old(modes)) && !jumping && turns > old(turns) && ram == old(ram)
    {
      ghost var code;
      ok, code := PrecomputeNextPc();
      if ok {
        CachedOffset(nextpcpage, nextpcoff, nextpc);
      } else {
        VectorIsReady();
      }
    }

    /** The word after a found one, if on the same page, is found by adding 4 to the offset. */
    lemma FoundNext(page: Page, off: int, addr: int, pid: int)
      requires Env() && Found(page, off, addr, pid) && (addr + 4) % PAGE != 0
      ensures Found(page, off + 4, addr + 4, pid)
    {
      NextInPage(false, tlb, pid, addr);
    }

    /** cpu_cycle's move to the next instruction after fetching insn. */
    method Advance(insn: bv32) returns (ok: bool)
      requires Valid() && insn == Fetch(pcpage, pcoff)
      modifies this
      ensures insn == RFE ==> ok && Env() && Aligned()
      ensures (insn != RFE ==> Ready()) && Steady()
      ensures if ok then ControlKeptButPc() && pc == old(nextpc) && nextpc == (old(nextpc) + 4) % WORD else turns > old(turns)
      ensures old(InsidePage(nextpc)) ==> ok && View() == Along(old(View()))
    {
      NextAligned(nextpc);
      if (nextpc + 4) % WORD % PAGE != 0 {
        StepInside();
        ok := true;
      } else if insn == RFE {
        DeferPage();
        ok := true;
      } else {
        ok := CrossPage();
      }
    }

    method StepInside()
      requires Valid() && InsidePage(nextpc)
      modifies this`pc, this`pcoff, this`pcpage, this`pcPid, this`nextpc, this`nextpcoff
      ensures Env() && Aligned() && pc == old(nextpc) && nextpc == old(nextpc) + 4
      ensures old(nextpcpage) != NoPage ==> Ready()
      ensures View() == Along(old(View()))
    {
      NextAligned(nextpc);
      if nextpcpage != NoPage {
        FoundNext(nextpcpage, nextpcoff, nextpc, nextPid);
      }
      ShiftAlong();
    }

    method ShiftAlong()
      modifies this`pc, this`pcoff, this`pcpage, this`pcPid, this`nextpc, this`nextpcoff
      ensures pc == old(nextpc) && pcoff == old(nextpcoff) && pcpage == old(nextpcpage) && pcPid == old(nextPid)
      ensures nextpc == old(nextpc) + 4 && nextpcoff == old(nextpcoff) + 4 && View() == Along(old(View()))
    {
      pc, pcoff, pcpage, pcPid := nextpc, nextpcoff, nextpcpage, nextPid;
      nextpc := nextpc + 4;
      nextpcoff := nextpcoff + 4;
    }

    /** nextpc reaches a new page while an RFE is executing: the lookup waits for the new mode. */
    method DeferPage()
      requires Valid()
      modifies this`pc, this`pcoff, this`pcpage, this`pcPid, this`nextpc, this`nextpcoff, this`nextpcpage
      ensures Env() && Aligned() && pc == old(nextpc) && nextpc == (old(nextpc) + 4) % WORD
    {
      NextAligned(nextpc);
      pc, pcoff, pcpage, pcPid := nextpc, nextpcoff, nextpcpage, nextPid;
      nextpc := (nextpc + 4) % WORD;
      nextpcpage := NoPage;
      nextpcoff := 0;
    }

    /** nextpc reaches a new page, which is looked up. */
    method CrossPage() returns (ok: bool)
      requires Ready()
      modifies this
      ensures Ready() && Steady()
      ensures ok ==> ControlKeptButPc() && pc == old(nextpc) && nextpc == (old(nextpc) + 4) % WORD
      ensures !ok ==> turns > old(turns)
    {
      ShiftOver();
      ok := LookAhead();
    }

    method ShiftOver()
      requires Ready()
      modifies this`pc, this`pcoff, this`pcpage, this`pcPid, this`nextpc
      ensures HalfReady() && pc == old(nextpc) && nextpc == After(old(nextpc))
    {
      NextAligned(nextpc);
      pc, pcoff, pcpage, pcPid := nextpc, nextpcoff, nextpcpage, nextPid;
      nextpc := After(nextpc);
    }

    twostate predicate ControlKeptButPc()
      reads this
    {
      unchanged(`expc, `jumping, `inJumpDelay, `modes, `boot, `ram, `stale, `turns, `tlb, `tlbindex, `tlbrandom)
      && tlbentry == old(tlbentry).(vpn := tlbentry.vpn)
    }

    /** check_tlb_dups: does the entry just written clash with another? */
    method CheckTlbDups(newix: int) returns (dup: bool)
      requires 0 <= newix < |tlb|
      ensures dup <==> exists i :: 0 <= i < |tlb| && i != newix && Conflict(tlb[newix], tlb[i])
    {
      dup := false;
      var i := 0;
      while i < |tlb|
        invariant 0 <= i <= |tlb|
        invariant dup <==> exists j :: 0 <= j < i && j != newix && Conflict(tlb[newix], tlb[j])
      {
        if i != newix && Conflict(tlb[newix], tlb[i]) {
          dup := true;
        }
        i := i + 1;
      }
    }

    /** writetlb: reports exactly the writes that make some lookup ambiguous. */
    method WriteTlb(ix: int) returns (dup: bool)
      requires Env() && InWord(pc) && InWord(nextpc) && 0 <= ix < NTLB
      modifies this
      ensures Ready() && tlb == old(tlb)[ix := old(tlbentry)] && Turned() && tlbentry.pid == old(tlbentry.pid)
      ensures turns == old(turns) ==> Settled() && unchanged(`pc, `nextpc, `modes, `stale, `ram, `tlbindex, `boot, `ex)
      ensures !old(modes.cur.user) && old(KSEG0 <= pc < KSEG2 && KSEG0 <= nextpc < KSEG2 && Reaches(pc) && Reaches(nextpc)) ==>
                turns == old(turns)
      ensures old(NoDups(tlb)) ==> (dup <==> !NoDups(tlb))
    {
      tlb := tlb[ix := tlbentry];
      dup := CheckTlbDups(ix);
      WriteAmbiguity(old(tlb), ix, tlbentry);
      var _, _ := PrecomputeBoth();
    }

    /** phony_exception: go back to expc; impossible translations are a hardware failure. */
    method PhonyException() returns (halted: bool)
      requires Env()
      modifies this
      ensures !halted ==> Ready() && pc == old(expc) && modes == old(modes) && ram == old(ram) && Steady()
    {
      jumping, inJumpDelay := false, false;
      pc := expc;
      nextpc := (pc + 4) % WORD;
      var ok, _ := PrecomputeBoth();
      return !ok;
    }

    method Raise(code: int)
      requires Env()
      modifies this
      ensures Ready() && Raised(code) && Fell(old(View()), View(), code, 0, false)
    {
      Exception(code, false, 0);
      VectorIsReady();
    }

    method StoreRam(paddr: int, value: bv32)
      requires Ready()
      modifies this`ram
      ensures Ready() && ram == old(ram)[paddr := value]
    {
      ram := ram[paddr := value];
    }

    /** accessmem's view of physical memory: RAM, boot ROM, bus registers (which answer iook), RAM again. */
    method FindBusError(paddr: int, iswrite: bool, iook: bool) returns (buserr: bool)
      ensures buserr == BusError(ramsize, paddr, iswrite, iook)
    {
      if paddr < 0x1fc0_0000 {
        buserr := paddr >= ramsize;
      } else if paddr < 0x1fe0_0000 {
        buserr := iswrite || paddr - 0x1fc0_0000 >= PAGE;
      } else if paddr < 0x2000_0000 {
        buserr := !iook;
      } else {
        // RAM is at most 16M, so this second window onto it is always empty.
        buserr := paddr - 0x40_0000 >= ramsize;
      }
    }

    /** accessmem */
    method AccessMem(paddr: int, iswrite: bool, iook: bool, value: bv32) returns (ok: bool)
      requires Ready()
      modifies this
      ensures ok <==> !BusError(ramsize, paddr, iswrite, iook)
      ensures Ready() && if ok then ControlKeptButRam() && ram == Written(old(ram), paddr, iswrite, value)
                         else Raised(EX_DBE) && Fell(old(View()), View(), EX_DBE, 0, false)
    {
      var buserr := FindBusError(paddr, iswrite, iook);
      if buserr {
        Raise(EX_DBE);
      } else if iswrite && paddr < 0x1fc0_0000 {
        StoreRam(paddr, value);
      }
      return !buserr;
    }

    /** Nothing that decides the next instruction has changed. */
    twostate predicate ControlKeptButRam()
      reads this
    {
      unchanged(`pc, `nextpc, `expc, `jumping, `inJumpDelay, `modes, `boot, `ex, `stale, `turns, `tlb, `tlbindex, `tlbrandom,
                `pcpage, `pcoff, `pcPid, `nextpcpage, `nextpcoff, `nextPid)
      && tlbentry == old(tlbentry).(vpn := tlbentry.vpn)
    }

    /** domem: a read that some write of the same instruction will follow is translated as a write. */
    method DoMem(vaddr: int, iswrite: bool, willbewrite: bool, iook: bool, value: bv32) returns (ok: bool, ghost code: int)
      requires Ready() && InWord(vaddr)
      modifies this
      ensures Ready()
      ensures var x := old(Translate(modes.cur.user, tlb, tlbentry.pid, vaddr, willbewrite));
              ok <==> x.Ok? && !BusError(ramsize, x.paddr, iswrite, iook)
      ensures if ok then ControlKeptButRam() else Raised(code)
      ensures MemDone(ramsize, old(View()), View(), vaddr, iswrite, willbewrite, iook, value)
    {
      var paddr;
      ok, paddr, code := TranslateMem(vaddr, willbewrite);
      if ok {
        ok := AccessMem(paddr, iswrite, iook, value);
        code := EX_DBE;
      } else {
        VectorIsReady();
      }
    }

    /** The stores of part of a word: read it, if that was possible write it back. */
    method StorePart(vaddr: int, readok: bool, writeok: bool, value: bv32) returns (ok: bool, ghost code: int)
      requires Ready() && InWord(vaddr)
      modifies this
      ensures Ready() && if ok then ControlKeptButRam() else Raised(code)
      ensures PartDone(ramsize, old(View()), View(), vaddr, readok, writeok, value)
    {
      ok, code := DoMem(vaddr, false, true, readok, 0);
      if ok {
        ok, code := DoMem(vaddr, true, true, writeok, value);
      }
    }

    /** setstatus: the one way into user mode that looks no translation up again. */
    method SetStatus(val: int)
      requires Ready() && !modes.cur.user
      modifies this`modes, this`boot, this`stale
      ensures Ready() && (stale <==> modes.cur.user) && (modes.cur.user <==> KUc(val))
      ensures modes == StatusModes(val) && (boot <==> Bit(val, 0x40_0000))
      ensures stale ==> (Cached(pcpage, pcoff, pc) <==> pc < KSEG0 && old(Cached(pcpage, pcoff, pc)))
      ensures stale ==> (Cached(nextpcpage, nextpcoff, nextpc) <==> nextpc < KSEG0 && old(Cached(nextpcpage, nextpcoff, nextpc)))
    {
      modes := StatusModes(val);
      boot := Bit(val, 0x40_0000);
      stale := modes.cur.user;
    }

    /** In kernel mode a page is still good exactly if its address is mapped directly or the current id finds the same frame. */
    lemma CachedFrame(page: Page, off: int, addr: int, key: int)
      requires Env() && !modes.cur.user && Found(page, off, addr, key)
      ensures Cached(page, off, addr) <==> KSEG0 <= addr < KSEG2 || SameFrame(tlb, PageOf(addr), key, tlbentry.pid)
    {
      CachedIff(page, off, addr);
      LocatedFrame(ramsize, tlb, page, off, addr, key, tlbentry.pid);
    }

    /** The TLB entry register changes: a kernel fetch through the TLB may now be from the wrong frame. */
    method SetEntry(e: Entry)
      requires Ready() && !modes.cur.user && EntryOk(e)
      modifies this`tlbentry
      ensures Ready() && tlbentry == e
      ensures Cached(pcpage, pcoff, pc) <==> KSEG0 <= pc < KSEG2 || SameFrame(tlb, PageOf(pc), pcPid, tlbentry.pid)
      ensures Cached(nextpcpage, nextpcoff, nextpc) <==> KSEG0 <= nextpc < KSEG2 || SameFrame(tlb, PageOf(nextpc), nextPid, tlbentry.pid)
    {
      tlbentry := e;
      CachedFrame(pcpage, pcoff, pc, pcPid);
      CachedFrame(nextpcpage, nextpcoff, nextpc, nextPid);
    }

    method SetExRegs(e: ExRegs)
      requires Ready()
      modifies this`ex
      ensures Ready() && View() == old(View()).(ex := e)
    {
      ex := e;
    }

    method SetIndex(val: int)
      requires Ready() && 0 <= val
      modifies this`tlbindex, this`tlbpf
      ensures Ready() && View() == old(View()).(tlbindex := val / 256 % 64) && (tlbpf <==> val >= 0x8000_0000)
    {
      tlbindex := val / 256 % 64;
      tlbpf := val >= 0x8000_0000;
    }

    /** probetlb: the index of the entry the register's page matches, or a note that there is none. */
    method ProbeTlb()
      requires Ready()
      modifies this`tlbindex, this`tlbpf
      ensures Ready()
      ensures var ix := FirstMatch(tlb, tlbentry.vpn, tlbentry.pid);
              View() == old(View()).(tlbindex := if ix >= 0 then ix else old(tlbindex)) && (tlbpf <==> ix < 0)
    {
      var ix := FindTlb(tlbentry.vpn);
      if ix < 0 {
        tlbpf := true;
      } else {
        tlbindex, tlbpf := ix, false;
      }
    }

    method WriteLo(val: int)
      requires Ready() && !modes.cur.user && InWord(val)
      modifies this`tlbentry
      ensures Ready() && View() == Written0(old(View()), 2, val)
    {
      SetEntry(LoWritten(tlbentry, val));
    }

    method WriteHi(val: int)
      requires Ready() && !modes.cur.user && InWord(val)
      modifies this`tlbentry
      ensures Ready() && View() == Written0(old(View()), 10, val)
      ensures Cached(pcpage, pcoff, pc) <==> KSEG0 <= pc < KSEG2 || SameFrame(tlb, PageOf(pc), pcPid, tlbentry.pid)
    {
      SetEntry(HiWritten(tlbentry, val));
    }

    method WriteStatus(val: int)
      requires Ready() && !modes.cur.user && InWord(val)
      modifies this`modes, this`boot, this`stale
      ensures Ready() && View() == Written0(old(View()), 12, val) && (stale <==> KUc(val))
    {
      SetStatus(val);
    }

    /** domt: the coprocessor registers a kernel can write. */
    method MoveTo0(reg: bv32, val: int)
      requires Ready() && !modes.cur.user && InWord(val)
      modifies this
      ensures Ready() && tlb == old(tlb)
      ensures (stale <==> reg == 12 && KUc(val)) && (reg != 12 ==> Turned())
      ensures reg == 0 ==> (tlbpf <==> val >= 0x8000_0000)
      ensures reg == 10 ==> (Cached(pcpage, pcoff, pc) <==> KSEG0 <= pc < KSEG2 || SameFrame(tlb, PageOf(pc), pcPid, tlbentry.pid))
      ensures if KnownRegister(reg) then View() == Written0(old(View()), reg, val) else Fell(old(View()), View(), EX_RI, 0, false)
    {
      if reg == 0 {
        SetIndex(val);
      } else if reg == 2 {
        WriteLo(val);
      } else if reg == 10 {
        WriteHi(val);
      } else if reg == 12 {
        WriteStatus(val);
      } else if reg == 4 {
        SetExRegs(ex.(context := val));
      } else if reg == 8 {
        SetExRegs(ex.(vaddr := val));
      } else if reg == 13 {
        SetExRegs(ex.(soft := SoftIrq(val)));
      } else if reg != 1 && reg != 14 && reg != 15 {
        Raise(EX_RI);
      }
    }

    /** domf: reading the random register brings it into range; an unknown register is reserved. */
    method MoveFrom0(reg: bv32)
      requires Ready() && !modes.cur.user
      modifies this
      ensures Ready() && Steady()
      ensures if KnownRegister(reg) then View() == old(View()) && tlbrandom == (if reg == 1 then old(tlbrandom) % 56 else old(tlbrandom))
              else Fell(old(View()), View(), EX_RI, 0, false)
    {
      if reg == 1 {
        tlbrandom := tlbrandom % 56;
      } else if !KnownRegister(reg) {
        Raise(EX_RI);
      }
    }

    /** tlbr */
    method ReadIndexed()
      requires Ready() && !modes.cur.user
      modifies this`tlbentry
      ensures Ready() && View() == old(View()).(tlbentry := tlb[tlbindex])
    {
      SetEntry(tlb[tlbindex]);
    }

    /** tlbwi */
    method WriteIndexed() returns (dup: bool)
      requires Ready() && !modes.cur.user
      modifies this
      ensures Ready() && !stale && Turned() && tlb == old(tlb)[old(tlbindex) := old(tlbentry)]
      ensures old(NoDups(tlb)) && !dup ==> NoDups(tlb)
      ensures TlbWrote(ramsize, old(View()), View())
    {
      dup := WriteTlb(tlbindex);
    }

    /** tlbwr */
    method WriteRandom() returns (dup: bool)
      requires Ready() && !modes.cur.user
      modifies this
      ensures Ready() && !stale && Turned() && tlb == old(tlb)[old(tlbrandom) % 56 + 8 := old(tlbentry)]
      ensures old(NoDups(tlb)) && !dup ==> NoDups(tlb)
    {
      tlbrandom := tlbrandom % 56;
      dup := WriteTlb(tlbrandom + 8);
    }

    /** The four TLB instructions. */
    method TlbOp(op: CopOp) returns (dup: bool)
      requires Ready() && !modes.cur.user && (op == Tlbr || op == Tlbwi || op == Tlbwr || op == Tlbp)
      modifies this
      ensures Ready() && !stale && Turned()
      ensures old(NoDups(tlb)) && !dup ==> NoDups(tlb)
      ensures tlb == if op == Tlbwi then old(tlb)[old(tlbindex) := old(tlbentry)]
                     else if op == Tlbwr then old(tlb)[old(tlbrandom) % 56 + 8 := old(tlbentry)] else old(tlb)
      ensures op == Tlbwr || CopDone(ramsize, old(View()), op, 0, View())
      ensures op == Tlbp ==> (tlbpf <==> FirstMatch(tlb, tlbentry.vpn, tlbentry.pid) < 0)
    {
      dup := false;
      match op {
        case Tlbr => ReadIndexed();
        case Tlbwi => dup := WriteIndexed();
        case Tlbwr => dup := WriteRandom();
        case Tlbp => ProbeTlb();
      }
    }

    /** mx_copz in kernel mode, for anything but RFE. */
    method Coprocessor0(op: CopOp, operand: int) returns (dup: bool)
      requires Ready() && !modes.cur.user && op != Rfe && op != NotCop && InWord(operand)
      modifies this
      ensures Ready()
      ensures stale <==> op == MoveTo(12) && KUc(operand)
      ensures if op == MoveTo(12) then modes == StatusModes(operand) && turns == old(turns) else Turned()
      ensures old(NoDups(tlb)) && !dup ==> NoDups(tlb)
      ensures tlb == if op == Tlbwi then old(tlb)[old(tlbindex) := old(tlbentry)]
                     else if op == Tlbwr then old(tlb)[old(tlbrandom) % 56 + 8 := old(tlbentry)] else old(tlb)
      ensures op == Tlbwr || CopDone(ramsize, old(View()), op, operand, View())
      ensures op == Tlbp ==> (tlbpf <==> FirstMatch(tlb, tlbentry.vpn, tlbentry.pid) < 0)
    {
      dup := false;
      match op {
        case Tlbr => dup := TlbOp(op);
        case Tlbwi => dup := TlbOp(op);
        case Tlbwr => dup := TlbOp(op);
        case Tlbp => dup := TlbOp(op);
        case MoveFrom(reg) =>
          MoveFrom0(reg);
        case MoveTo(reg) =>
          MoveTo0(reg, operand);
        case Wait =>
        case Unusable =>
          Raise(EX_CPU);
        case Reserved =>
          Raise(EX_RI);
        case NotCop =>
          assert false;
        case Rfe =>
          assert false;
      }
    }

    /** The mode stack after a word that is not an RFE: written by a kernel, or moved by an exception at most. */
    twostate predicate Moved(insn: bv32, operand: int)
      reads this
    {
      if !old(modes.cur.user) && DecodeCop(insn) == MoveTo(12)
      then modes == StatusModes(operand) && turns == old(turns) && (stale <==> KUc(operand))
      else Turned()
    }

    /** Everything after the fetch of a word that is not an RFE. */
    method Execute(insn: bv32, eff: Effect, operand: int) returns (dup: bool, halted: bool, stopped: bool)
      requires Ready() && insn != RFE && InWord(operand) && EffectOk(eff)
      modifies this
      ensures !halted ==> Valid() && Moved(insn, operand)
      ensures !halted && old(NoDups(tlb)) && !dup ==> NoDups(tlb)
      ensures old(Fetch(pcpage, pcoff)) == RFE || Did(ramsize, old(View()), insn, eff, operand, View(), halted)
    {
      dup, halted, stopped := false, false, false;
      OnlyFullopRfe(insn);
      var op := DecodeCop(insn);
      if op != NotCop {
        if modes.cur.user {
          Raise(EX_CPU);
        } else {
          dup := Coprocessor0(op, operand);
        }
        return;
      }
      halted, stopped := ExecuteOrdinary(eff);
    }

    /** An instruction that is for no coprocessor. */
    method ExecuteOrdinary(eff: Effect) returns (halted: bool, stopped: bool)
      requires Ready() && EffectOk(eff)
      modifies this
      ensures !halted ==> Valid() && Steady()
      ensures old(Fetch(pcpage, pcoff)) == RFE || OrdinaryDone(ramsize, old(View()), eff, View(), halted)
    {
      halted, stopped := false, false;
      match eff {
        case Alu =>
        case Branch(target) => Jump(target);
        case Trap(code) => Raise(code);
        case Stall => halted := PhonyException();
        case Breakpoint =>
          halted := PhonyException();
          stopped := true;
        case _ => Memory(eff);
      }
    }

    method Memory(eff: Effect)
      requires Ready() && EffectOk(eff) && (eff.Load? || eff.Store? || eff.StorePart?)
      modifies this
      ensures Ready() && Steady() && OrdinaryDone(ramsize, old(View()), eff, View(), false)
    {
      match eff {
        case Load(vaddr, iook) =>
          var _, _ := DoMem(vaddr, false, false, iook, 0);
        case Store(vaddr, iook, value) =>
          var _, _ := DoMem(vaddr, true, true, iook, value);
        case StorePart(vaddr, readok, writeok, value) =>
          var _, _ := StorePart(vaddr, readok, writeok, value);
      }
    }

    /** An RFE in user mode is the exception for an unusable coprocessor. */
    twostate predicate Refused()
      reads this
    {
      && tlb == old(tlb) && tlbentry.pid == old(tlbentry.pid) && AtVector() && modes == M.Push(old(modes))
      && !stale && turns == old(turns) + 1 && ex.code == 4 * EX_CPU && ex.epc == old(expc)
    }

    /** Everything after the fetch of an RFE, whose successors may have no page yet. */
    method ExecuteRfe()
      requires Env() && Aligned()
      modifies this
      ensures Ready() && if old(modes.cur.user) then Raised(EX_CPU) else Returned()
    {
      if modes.cur.user {
        Raise(EX_CPU);
      } else {
        var _, _ := DoRfe();
      }
    }

    method SettleExPc()
      requires Valid()
      modifies this`jumping, this`inJumpDelay, this`expc
      ensures Valid() && View() == old(View()) && !jumping
      ensures expc == (if old(jumping) then old(expc) else old(pc)) && (inJumpDelay <==> old(jumping || inJumpDelay))
    {
      if jumping {
        jumping, inJumpDelay := false, true;
      } else {
        expc := pc;
      }
    }

    /** cpu_cycle up to the fetch: settle expc and take a pending interrupt. */
    method BeginCycle(pending: bool)
      requires Valid()
      modifies this
      ensures Valid() && Steady()
      ensures !(old(modes.cur.irq) && pending) ==> View() == old(View()) && !jumping
      ensures !(old(modes.cur.irq) && pending) ==> expc == (if old(jumping) then old(expc) else old(pc)) && (old(jumping) ==> inJumpDelay)
      ensures old(modes.cur.irq) && pending ==> ex.epc == (if old(jumping) then old(expc) else old(pc)) && modes == M.Push(old(modes))
    {
      SettleExPc();
      if modes.cur.irq && pending {
        Exception(EX_IRQ, false, 0);
        VectorIsReady();
        expc := pc;
      }
    }

    /** What is seen at a fetch. */
    ghost function Snap(): Snapshot
      reads this
    {
      Snapshot(Fetched(pc, pcpage, pcoff, modes.cur.user, Fetch(pcpage, pcoff)), nextpc, tlb, tlbentry.pid, pcPid, modes, turns, stale)
    }

    /** What has become of the RFE fetched at `at`. */
    ghost predicate RfeDone(at: Snapshot)
      reads this
      requires InWord(at.nextpc)
    {
      && tlb == at.tlb && tlbentry.pid == at.pid
      && if at.f.user then modes == M.Push(at.modes) && AtVector() && ex.code == 4 * EX_CPU && turns == at.turns + 1
         else
           var m := M.Pop(at.modes);
           if ReachableTwo(ramsize, m.cur.user, at.tlb, at.pid, at.nextpc, After(at.nextpc))
           then modes == m && pc == at.nextpc && nextpc == After(at.nextpc) && Settled() && turns == at.turns + 1
           else modes == M.Push(m) && AtVector() && ex.epc == at.nextpc && turns == at.turns + 2
    }

    /**
     cpu_cycle.  `pending` is the state of the unmasked interrupt lines, `eff` what the
     registers make of an ordinary instruction, `operand` the register an mtc0 stores.
     */
    method Cycle(pending: bool, eff: Effect, operand: int)
      returns (fetched: Fetched, dup: bool, halted: bool, ghost at: Snapshot, ghost act: Act)
      requires Valid() && InWord(operand) && EffectOk(eff)
      modifies this
      ensures !halted ==> Valid()
      ensures fetched == at.f && FetchOk(ramsize, at) && at.tlb == old(tlb) && at.pid == old(tlbentry.pid)
      ensures act.irq <==> old(modes.cur.irq) && pending
      ensures at.modes == Interrupted(old(modes), act) && at.turns == old(turns) + (if act.irq then 1 else 0)
      ensures at.stale <==> old(stale) && at.turns == old(turns)
      ensures !halted ==> turns == at.turns + |Rest(act)| && (stale <==> turns == at.turns && (at.stale || UserWrite(at, operand)))
      ensures (act.rfe <==> Returns(at)) && (act.exn && !halted ==> AtVector())
      ensures !halted ==> modes == ModesAfter(old(modes), at, operand, act)
      ensures at.f.word == RFE ==> !halted && RfeDone(at)
      ensures !halted && old(NoDups(tlb)) && !dup ==> NoDups(tlb)
      ensures if act.irq then IsVector(at.f.pc) else at == old(Snap())
      ensures pending || !old(Plain()) || Did(ramsize, Along(old(View())), old(Fetch(pcpage, pcoff)), eff, operand, View(), halted)
    {
      dup, halted := false, false;
      BeginCycle(pending);
      at := Snap();
      SnapOk();
      fetched := Fetched(pc, pcpage, pcoff, modes.cur.user, Fetch(pcpage, pcoff));
      dup, halted := Proceed(eff, operand);
      act := Act(old(modes.cur.irq) && pending, Returns(at), turns > at.turns + if Returns(at) then 1 else 0);
      ActRun(old(modes), act);
    }

    /** The rest of cpu_cycle, from the fetch on. */
    method Proceed(eff: Effect, operand: int) returns (dup: bool, halted: bool)
      requires Valid() && InWord(operand) && EffectOk(eff)
      modifies this
      ensures !halted ==> Valid()
      ensures !halted && old(Fetch(pcpage, pcoff)) != RFE ==> Went(old(Fetch(pcpage, pcoff)), operand)
      ensures old(Fetch(pcpage, pcoff)) == RFE ==> !halted && !stale && RfeDone(old(Snap()))
      ensures !halted && old(NoDups(tlb)) && !dup ==> NoDups(tlb)
      ensures !old(Plain()) || Did(ramsize, Along(old(View())), old(Fetch(pcpage, pcoff)), eff, operand, View(), halted)
    {
      dup, halted := false, false;
      var insn := Fetch(pcpage, pcoff);
      var ok := Advance(insn);
      if insn == RFE {
        FinishRfe();
      } else if ok {
        dup, halted := FinishCycle(insn, eff, operand);
      }
    }

    /** As Moved, unless an exception kept the word from being executed. */
    twostate predicate Went(insn: bv32, operand: int)
      reads this
    {
      if !old(modes.cur.user) && DecodeCop(insn) == MoveTo(12) && turns == old(turns)
      then modes == StatusModes(operand) && (stale <==> KUc(operand))
      else Turned()
    }

    /** In the middle of a page, no RFE in sight. */
    ghost predicate Plain()
      reads this
    {
      && InsidePage(nextpc) && nextpcpage != NoPage
      && Fetch(pcpage, pcoff) != RFE && Fetch(nextpcpage, nextpcoff) != RFE
    }

    lemma SnapOk()
      requires Valid()
      ensures FetchOk(ramsize, Snap())
    {
    }

    /** The rest of cpu_cycle for a word that is not an RFE: execute, then tick the registers that tick. */
    method FinishCycle(insn: bv32, eff: Effect, operand: int) returns (dup: bool, halted: bool)
      requires Ready() && insn != RFE && InWord(operand) && EffectOk(eff)
      modifies this
      ensures !halted ==> Valid() && Moved(insn, operand)
      ensures !halted && old(NoDups(tlb)) && !dup ==> NoDups(tlb)
      ensures old(Fetch(pcpage, pcoff)) == RFE || Did(ramsize, old(View()), insn, eff, operand, View(), halted)
    {
      var stopped;
      dup, halted, stopped := Execute(insn, eff, operand);
      if !halted && !stopped {
        Tick();
      }
    }

    method Tick()
      requires Valid()
      modifies this`inJumpDelay, this`tlbrandom
      ensures Valid() && View() == old(View()) && !inJumpDelay && (old(AtVector()) ==> AtVector())
    {
      inJumpDelay := false;
      tlbrandom := tlbrandom + 1;
    }

    /** The same for an RFE. */
    method FinishRfe()
      requires Env() && Aligned()
      modifies this
      ensures Ready() && if old(modes.cur.user) then Refused() else Returned()
    {
      ExecuteRfe();
      Tick();
    }

    /**
     Whole runs. No fetch ever goes through a null page, and each is through the page its address
     was last looked up to be on; FreshExactly says when that is where it translates to now. User
     mode is stale exactly while it was entered by a status write with no exception or RFE since.
     And as long as no duplicate TLB entry is reported, no lookup is ambiguous.
     */
    method Run(script: seq<Input>) returns (ghost log: seq<Snapshot>, ghost acts: seq<Act>, dups: bool, halted: bool)
      requires Valid() && !stale
      requires forall i :: 0 <= i < |script| ==> EffectOk(script[i].eff) && InWord(script[i].operand)
      modifies this
      ensures |acts| == |log| <= |script| && (halted || |log| == |script|)
      ensures LogOk(ramsize, log, script[..|log|])
      ensures old(NoDups(tlb)) && !dups ==> (!halted ==> NoDups(tlb)) && LogNoDups(log)
      ensures ActsOk(old(modes), log, script[..|log|], acts)
      ensures !halted ==> modes == ModesOver(old(modes), log, script[..|log|], acts)
      ensures !halted && NoStatusWrites(log) ==> modes == M.Run(old(modes), History(acts))
    {
      log, acts, dups, halted := [], [], false, false;
      ghost var done: seq<Input> := [];
      var i := 0;
      while i < |script| && !halted
        invariant 0 <= i <= |script| && |log| == |acts| == |done| == i && done == script[..i]
        invariant LogOk(ramsize, log, done) && ActsOk(old(modes), log, done, acts)
        invariant !halted ==> OnTrack(old(modes), log, done, acts)
        invariant old(NoDups(tlb)) && !dups ==> (!halted ==> NoDups(tlb)) && LogNoDups(log)
        decreases |script| - i
      {
        var dup, stop, at, act := CycleOn(script[i], old(modes), log, done, acts);
        log, acts, done, dups, halted := log + [at], acts + [act], done + [script[i]], dups || dup, stop;
        i := i + 1;
      }
      if NoStatusWrites(log) {
        ModesByEvents(old(modes), log, done, acts);
      }
    }

    /** The machine is where the log says it is. */
    ghost predicate OnTrack(m: M.Stack, log: seq<Snapshot>, script: seq<Input>, acts: seq<Act>)
      reads this
      requires |log| == |script| == |acts|
    {
      && Valid() && Accounted(log, script, turns, stale) && modes == ModesOver(m, log, script, acts)
      && (log != [] ==> Ahead(log[|log| - 1], acts[|log| - 1], pc))
    }

    /** One more cycle of a run. */
    method CycleOn(x: Input, ghost m: M.Stack, ghost log: seq<Snapshot>, ghost script: seq<Input>, ghost acts: seq<Act>)
      returns (dup: bool, halted: bool, ghost at: Snapshot, ghost act: Act)
      requires |log| == |script| == |acts| && OnTrack(m, log, script, acts)
      requires LogOk(ramsize, log, script) && ActsOk(m, log, script, acts) && EffectOk(x.eff) && InWord(x.operand)
      modifies this
      ensures LogOk(ramsize, log + [at], script + [x]) && ActsOk(m, log + [at], script + [x], acts + [act])
      ensures !halted ==> OnTrack(m, log + [at], script + [x], acts + [act])
      ensures at.tlb == old(tlb) && (!halted && old(NoDups(tlb)) && !dup ==> NoDups(tlb))
    {
      var f;
      f, dup, halted, at, act := Cycle(x.pending, x.eff, x.operand);
      ActsOkNext(m, log, script, acts, at, x, act);
      AccountedNext(log, script, old(turns), old(stale), at, x, turns, stale, halted);
      LogOkNext(ramsize, log, script, at, x);
    }
  }

  /** Every fetch of the log is right, and marked stale exactly when it is. */
  ghost predicate LogOk(ramsize: int, log: seq<Snapshot>, script: seq<Input>)
    requires |log| == |script|
  {
    forall k :: 0 <= k < |log| ==> SnapshotOk(ramsize, log, script, k)
  }

  ghost predicate SnapshotOk(ramsize: int, log: seq<Snapshot>, script: seq<Input>, k: int)
    requires |log| == |script| && 0 <= k < |log|
  {
    FetchOk(ramsize, log[k]) && (log[k].stale <==> ByStatus(log[..k], script[..k], log[k].turns))
  }

  lemma LogOkNext(ramsize: int, log: seq<Snapshot>, script: seq<Input>, at: Snapshot, x: Input)
    requires |log| == |script| && LogOk(ramsize, log, script)
    requires FetchOk(ramsize, at) && (at.stale <==> ByStatus(log, script, at.turns))
    ensures LogOk(ramsize, log + [at], script + [x])
  {
    forall k | 0 <= k <= |log|
      ensures SnapshotOk(ramsize, log + [at], script + [x], k)
    {
      assert (log + [at])[..k] == log[..k] && (script + [x])[..k] == script[..k];
      assert k < |log| ==> SnapshotOk(ramsize, log, script, k);
      assert log[..|log|] == log && script[..|script|] == script;
    }
  }

  ghost predicate LogNoDups(log: seq<Snapshot>) {
    forall k :: 0 <= k < |log| ==> NoDups(log[k].tlb)
  }

  datatype Core = Core(pc: int, nextpc: int, pcpage: Page, pcoff: int, nextpcpage: Page, nextpcoff: int, pcPid: int, nextPid: int,
                       ram: map<int, bv32>, tlb: seq<Entry>, tlbentry: Entry, tlbindex: int, modes: M.Stack, boot: bool, ex: ExRegs,
                       turns: nat)

  ghost predicate Reachable(ramsize: int, user: bool, tlb: seq<Entry>, pid: int, addr: int) {
    && InWord(addr)
    && var x := Translate(user, tlb, pid, addr, false);
       x.Ok? && MapMem(ramsize, x.paddr) != NoPage
  }

  ghost predicate ReachableTwo(ramsize: int, user: bool, tlb: seq<Entry>, pid: int, pc: int, nextpc: int) {
    Reachable(ramsize, user, tlb, pid, pc) && Reachable(ramsize, user, tlb, pid, nextpc)
  }

  /** The word after addr is on the same page as the one after that. */
  predicate InsidePage(addr: int) { (addr + 4) % WORD % PAGE != 0 }

  /** On to the next word of a page. */
  ghost function Along(v: Core): Core {
    v.(pc := v.nextpc, pcoff := v.nextpcoff, pcpage := v.nextpcpage, pcPid := v.nextPid, nextpc := v.nextpc + 4, nextpcoff := v.nextpcoff + 4)
  }

  /** The effect of an mtc0; the random, epc and processor id registers are not written. */
  ghost function Written0(v: Core, reg: bv32, val: int): Core
    requires EntryOk(v.tlbentry) && InWord(val)
  {
    if reg == 0 then v.(tlbindex := val / 256 % 64)
    else if reg == 2 then v.(tlbentry := LoWritten(v.tlbentry, val))
    else if reg == 4 then v.(ex := v.ex.(context := val))
    else if reg == 8 then v.(ex := v.ex.(vaddr := val))
    else if reg == 10 then v.(tlbentry := HiWritten(v.tlbentry, val))
    else if reg == 12 then v.(modes := StatusModes(val), boot := Bit(val, 0x40_0000))
    else if reg == 13 then v.(ex := v.ex.(soft := SoftIrq(val)))
    else v
  }

  /** An exception with this code and bad address, at the right vector, and nothing else. */
  ghost predicate Fell(v: Core, v': Core, code: int, vaddr: int, utlb: bool) {
    && v'.modes == M.Push(v.modes) && v'.turns == v.turns + 1 && v'.pc == Vector(v.boot, utlb) && v'.nextpc == v'.pc + 4
    && v'.ex.code == 4 * code && v'.ex.vaddr == vaddr && v'.ram == v.ram && v'.tlb == v.tlb && v'.boot == v.boot
  }

  /** A load or store has been done, or its exception taken. */
  ghost predicate MemDone(ramsize: int, v: Core, v': Core, vaddr: int, iswrite: bool, willbewrite: bool, iook: bool, value: bv32) {
    && InWord(vaddr)
    && var x := Translate(v.modes.cur.user, v.tlb, v.tlbentry.pid, vaddr, willbewrite);
       if !x.Ok? then Fell(v, v', CodeOf(x.fault), vaddr, x.utlb)
       else if BusError(ramsize, x.paddr, iswrite, iook) then Fell(v, v', EX_DBE, 0, false)
       else v' == v.(ram := Written(v.ram, x.paddr, iswrite, value), tlbentry := v.tlbentry.(vpn := v'.tlbentry.vpn))
  }

  /** A store that takes no exception leaves its word where a fetch of that address would read it, and nothing else. */
  lemma StoreReaches(ramsize: int, v: Core, v': Core, vaddr: int, iook: bool, value: bv32)
    requires MemDone(ramsize, v, v', vaddr, true, true, iook, value) && v'.turns == v.turns && PAGE <= ramsize <= 0x100_0000 && TlbOk(v.tlb)
    ensures var x := Translate(v.modes.cur.user, v.tlb, v.tlbentry.pid, vaddr, false);
            && x.Ok?
            && match MapMem(ramsize, x.paddr)
               case Ram(base) =>
                 var at := base + x.paddr % PAGE;
                 at in v'.ram && v'.ram[at] == value && v'.ram == v.ram[at := value]
               case _ => v'.ram == v.ram
  {
  }

  /** The same for a store of part of a word, which is read first. */
  ghost predicate PartDone(ramsize: int, v: Core, v': Core, vaddr: int, readok: bool, writeok: bool, value: bv32) {
    && InWord(vaddr)
    && var x := Translate(v.modes.cur.user, v.tlb, v.tlbentry.pid, vaddr, true);
       if !x.Ok? then Fell(v, v', CodeOf(x.fault), vaddr, x.utlb)
       else if BusError(ramsize, x.paddr, false, readok) || BusError(ramsize, x.paddr, true, writeok) then Fell(v, v', EX_DBE, 0, false)
       else v' == v.(ram := Written(v.ram, x.paddr, true, value), tlbentry := v.tlbentry.(vpn := v'.tlbentry.vpn))
  }

  /** A page and offset are where addr translates to. */
  ghost predicate Right(ramsize: int, v: Core, page: Page, off: int, addr: int) {
    && InWord(addr)
    && var x := Translate(v.modes.cur.user, v.tlb, v.tlbentry.pid, addr, false);
       x.Ok? && page == MapMem(ramsize, x.paddr) && off == x.paddr % PAGE
  }

  /** The TLB has been written by a kernel that runs in kseg0 or kseg1. */
  ghost predicate TlbWrote(ramsize: int, v: Core, v': Core)
    requires 0 <= v.tlbindex < |v.tlb|
  {
    !v.modes.cur.user && KSEG0 <= v.pc < KSEG2 && KSEG0 <= v.nextpc < KSEG2
    && Reachable(ramsize, false, v.tlb, v.tlbentry.pid, v.pc) && Reachable(ramsize, false, v.tlb, v.tlbentry.pid, v.nextpc) ==>
      && v'.tlb == v.tlb[v.tlbindex := v.tlbentry] && v'.tlbentry.pid == v.tlbentry.pid && v'.pcPid == v'.nextPid == v.tlbentry.pid
      && v' == Core(v.pc, v.nextpc, v'.pcpage, v'.pcoff, v'.nextpcpage, v'.nextpcoff, v'.pcPid, v'.nextPid,
                    v.ram, v'.tlb, v'.tlbentry, v.tlbindex, v.modes, v.boot, v.ex, v.turns)
      && Right(ramsize, v', v'.pcpage, v'.pcoff, v.pc) && Right(ramsize, v', v'.nextpcpage, v'.nextpcoff, v.nextpc)
  }

  /** nextpc has been aimed at an address that can be looked up. */
  ghost predicate Aimed(ramsize: int, v: Core, addr: int, v': Core) {
    addr % 4 == 0 && Reachable(ramsize, v.modes.cur.user, v.tlb, v.tlbentry.pid, addr) ==>
      && v' == v.(nextpc := addr, nextpcpage := v'.nextpcpage, nextpcoff := v'.nextpcoff, nextPid := v.tlbentry.pid,
                  tlbentry := v.tlbentry.(vpn := v'.tlbentry.vpn))
      && Right(ramsize, v', v'.nextpcpage, v'.nextpcoff, addr)
  }

  /** What a coprocessor instruction of the kernel does; tlbwr's entry is chosen by a counter that is not part of this. */
  ghost predicate CopDone(ramsize: int, v: Core, op: CopOp, operand: int, v': Core)
    requires EntryOk(v.tlbentry) && InWord(operand) && 0 <= v.tlbindex < |v.tlb|
  {
    match op
    case MoveTo(reg) => if KnownRegister(reg) then v' == Written0(v, reg, operand) else Fell(v, v', EX_RI, 0, false)
    case MoveFrom(reg) => if KnownRegister(reg) then v' == v else Fell(v, v', EX_RI, 0, false)
    case Tlbr => v' == v.(tlbentry := v.tlb[v.tlbindex])
    case Tlbwi => TlbWrote(ramsize, v, v')
    case Tlbp =>
      var ix := FirstMatch(v.tlb, v.tlbentry.vpn, v.tlbentry.pid);
      v' == v.(tlbindex := if ix >= 0 then ix else v.tlbindex)
    case Wait => v' == v
    case Unusable => Fell(v, v', EX_CPU, 0, false)
    case Reserved => Fell(v, v', EX_RI, 0, false)
    case _ => true
  }

  /** What an instruction for no coprocessor does. */
  ghost predicate OrdinaryDone(ramsize: int, v: Core, eff: Effect, v': Core, halted: bool) {
    match eff
    case Alu => !halted && v' == v
    case Branch(target) => !halted && Aimed(ramsize, v, target, v')
    case Load(vaddr, iook) => !halted && MemDone(ramsize, v, v', vaddr, false, false, iook, 0)
    case Store(vaddr, iook, value) => !halted && MemDone(ramsize, v, v', vaddr, true, true, iook, value)
    case StorePart(vaddr, readok, writeok, value) => !halted && PartDone(ramsize, v, v', vaddr, readok, writeok, value)
    case Trap(code) => !halted && Fell(v, v', code, 0, false)
    case _ => !halted ==> v'.ram == v.ram && v'.modes == v.modes
  }

  /** What an instruction other than RFE does, after the step to the next word. */
  ghost predicate Did(ramsize: int, v: Core, insn: bv32, eff: Effect, operand: int, v': Core, halted: bool)
    requires EntryOk(v.tlbentry) && InWord(operand) && 0 <= v.tlbindex < |v.tlb|
  {
    if DecodeCop(insn) == NotCop then OrdinaryDone(ramsize, v, eff, v', halted)
    else
      !halted && if v.modes.cur.user then Fell(v, v', EX_CPU, 0, false) else CopDone(ramsize, v, DecodeCop(insn), operand, v')
  }

  /** The context register after an exception: the page table base kept, the page number of vaddr below it. */
  function ContextAt(context: int, vaddr: int): int {
    context / 0x20_0000 * 0x20_0000 + vaddr / 0x1000 % 0x8_0000 * 4
  }

  /** The software interrupt bits, all of the cause register that can be written. */
  function SoftIrq(val: int): int { val / 0x100 % 4 * 0x100 }

  /** The registers domf can read. */
  predicate KnownRegister(reg: bv32) {
    reg == 0 || reg == 1 || reg == 2 || reg == 4 || reg == 8 || reg == 10 || reg == 12 || reg == 13 || reg == 14 || reg == 15
  }

  /** page and off are where kernel mode finds addr with this TLB and address space id. */
  ghost predicate Located(ramsize: int, tlb: seq<Entry>, page: Page, off: int, addr: int, pid: int)
    requires InWord(addr)
  {
    var x := Translate(false, tlb, pid, addr, false);
    x.Ok? && page == MapMem(ramsize, x.paddr) && page != NoPage && off == x.paddr % PAGE
  }

  /** reset_tlbentry: entries that match nothing. */
  function ResetEntry(index: int): Entry {
    Entry(false, false, false, false, 0, 0x8100_0000 + index * 0x1000, 0)
  }

  predicate Bit(val: int, b: int)
    requires b > 0
  {
    val / b % 2 == 1
  }

  /** The current-mode bit of a status register value. */
  predicate KUc(val: int) { Bit(val, 2) }

  /** The three modes in a status register value: from the lowest bit up, interrupts and user mode of each. */
  function StatusModes(val: int): M.Stack {
    M.Stack(M.Mode(Bit(val, 2), Bit(val, 1)), M.Mode(Bit(val, 8), Bit(val, 4)), M.Mode(Bit(val, 32), Bit(val, 16)))
  }

  /** accessmem has nothing at this physical address for this kind of access. */
  predicate BusError(ramsize: int, paddr: int, iswrite: bool, iook: bool) {
    if paddr < 0x1fc0_0000 then paddr >= ramsize
    else if paddr < 0x1fe0_0000 then iswrite || paddr - 0x1fc0_0000 >= PAGE
    else if paddr < 0x2000_0000 then !iook
    else paddr - 0x40_0000 >= ramsize
  }

  function Written(ram: map<int, bv32>, paddr: int, iswrite: bool, value: bv32): map<int, bv32> {
    if iswrite && paddr < 0x1fc0_0000 then ram[paddr := value] else ram
  }

  /** The word was read where its address translates to at the fetch. */
  ghost predicate Fresh(ramsize: int, s: Snapshot)
    requires InWord(s.f.pc)
  {
    var x := Translate(s.f.user, s.tlb, s.pid, s.f.pc, false);
    x.Ok? && s.f.page == MapMem(ramsize, x.paddr) && s.f.off == x.paddr % PAGE
  }

  /** What holds of every fetch: the page is a real one, the one found at the last lookup; if RFE led to user mode, in that mode. */
  ghost predicate FetchOk(ramsize: int, s: Snapshot) {
    && TlbOk(s.tlb) && PAGE <= ramsize <= 0x100_0000
    && InWord(s.f.pc) && InWord(s.nextpc) && s.f.user == s.modes.cur.user && s.f.page != NoPage && Located(ramsize, s.tlb, s.f.page, s.f.off, s.f.pc, s.key)
    && (s.stale ==> s.f.user)
    && (s.f.user && !s.stale ==> s.f.pc < KSEG0 && s.key == s.pid)
  }

  /** The two ids find valid entries with the same frame for this page. */
  ghost predicate SameFrame(tlb: seq<Entry>, page: int, key: int, pid: int) {
    var i, j := FirstMatch(tlb, page, key), FirstMatch(tlb, page, pid);
    && 0 <= i < |tlb| && 0 <= j < |tlb| && tlb[j].valid && tlb[i].pfn == tlb[j].pfn
  }

  /**
   The exact condition for a fetch to be fresh: the mode may use the address, and if the address
   goes through the TLB, the current address space id finds the frame that the lookup's id found.
   */
  lemma FreshExactly(ramsize: int, s: Snapshot)
    requires FetchOk(ramsize, s)
    ensures Fresh(ramsize, s) <==>
            (s.f.user ==> s.f.pc < KSEG0) && (KSEG0 <= s.f.pc < KSEG2 || SameFrame(s.tlb, PageOf(s.f.pc), s.key, s.pid))
  {
    FreshIff(ramsize, s);
    LocatedFrame(ramsize, s.tlb, s.f.page, s.f.off, s.f.pc, s.key, s.pid);
  }

  lemma FreshIff(ramsize: int, s: Snapshot)
    requires FetchOk(ramsize, s)
    ensures Fresh(ramsize, s) <==>
            Located(ramsize, s.tlb, s.f.page, s.f.off, s.f.pc, s.pid) && (s.f.user ==> s.f.pc < KSEG0)
  {
  }

  /** An address found under one id is found in the same place under another exactly if it needs no entry, or both find the same frame. */
  lemma LocatedFrame(ramsize: int, tlb: seq<Entry>, page: Page, off: int, addr: int, key: int, pid: int)
    requires TlbOk(tlb) && PAGE <= ramsize <= 0x100_0000 && InWord(addr) && Located(ramsize, tlb, page, off, addr, key)
    ensures Located(ramsize, tlb, page, off, addr, pid) <==> KSEG0 <= addr < KSEG2 || SameFrame(tlb, PageOf(addr), key, pid)
  {
    if !(KSEG0 <= addr < KSEG2) {
      var i, j := FirstMatch(tlb, PageOf(addr), key), FirstMatch(tlb, PageOf(addr), pid);
      FrameOf(ramsize, tlb[i].pfn, addr % PAGE);
      if 0 <= j < |tlb| && tlb[j].valid {
        FrameOf(ramsize, tlb[j].pfn, addr % PAGE);
        if page == MapMem(ramsize, tlb[j].pfn) {
          MapMemInjective(ramsize, tlb[i].pfn, tlb[j].pfn);
        }
      }
    }
  }

  lemma FrameOf(ramsize: int, pfn: int, off: int)
    requires pfn % PAGE == 0 && 0 <= off < PAGE
    ensures MapMem(ramsize, pfn + off) == MapMem(ramsize, pfn) && (pfn + off) % PAGE == off
  {
    assert PageOf(pfn + off) == pfn == PageOf(pfn);
  }

  /** No two frames are the same memory. */
  lemma MapMemInjective(ramsize: int, p: int, q: int)
    requires p % PAGE == 0 && q % PAGE == 0 && ramsize <= 0x100_0000
    requires MapMem(ramsize, p) == MapMem(ramsize, q) != NoPage
    ensures p == q
  {
    assert PageOf(p) == p && PageOf(q) == q;
  }

  /** So every fetch in user mode entered by RFE, and every kernel fetch from kseg0 or kseg1, is fresh ... */
  lemma PromisedFetches(ramsize: int, s: Snapshot)
    requires FetchOk(ramsize, s) && !s.stale && (s.f.user || KSEG0 <= s.f.pc < KSEG2)
    ensures Fresh(ramsize, s)
  {
  }

  /** ... and no fetch from a kernel address in user mode is. */
  lemma StaleKernelFetch(ramsize: int, s: Snapshot)
    requires FetchOk(ramsize, s) && s.f.user && KSEG0 <= s.f.pc
    ensures s.stale && !Fresh(ramsize, s)
  {
  }

  /** An instruction that writes user mode into the status register. */
  predicate WritesUser(insn: bv32, operand: int) {
    DecodeCop(insn) == MoveTo(12) && KUc(operand)
  }

  predicate UserWrite(s: Snapshot, operand: int) {
    !s.f.user && WritesUser(s.f.word, operand)
  }

  /** User mode was entered by a status write, and there have been no more exceptions and RFEs since than then. */
  ghost predicate ByStatus(log: seq<Snapshot>, script: seq<Input>, turns: nat)
    requires |log| == |script|
  {
    exists j :: 0 <= j < |log| && UserWrite(log[j], script[j].operand) && log[j].turns == turns
  }

  ghost predicate Accounted(log: seq<Snapshot>, script: seq<Input>, turns: nat, stale: bool)
    requires |log| == |script|
  {
    (stale <==> ByStatus(log, script, turns)) && forall j :: 0 <= j < |log| ==> log[j].turns <= turns
  }

  lemma AccountedNext(log: seq<Snapshot>, script: seq<Input>, turns: nat, stale: bool, at: Snapshot, x: Input,
                      turns': nat, stale': bool, halted: bool)
    requires |log| == |script| && Accounted(log, script, turns, stale)
    requires at.turns >= turns && (at.stale <==> stale && at.turns == turns)
    requires !halted ==> turns' >= at.turns && (stale' <==> turns' == at.turns && (at.stale || UserWrite(at, x.operand)))
    ensures at.stale <==> ByStatus(log, script, at.turns)
    ensures !halted ==> Accounted(log + [at], script + [x], turns', stale')
  {
    var log', script' := log + [at], script + [x];
    if !halted && ByStatus(log, script, turns') {
      var j :| 0 <= j < |log| && UserWrite(log[j], script[j].operand) && log[j].turns == turns';
      assert log'[j] == log[j] && script'[j] == script[j];
    }
    assert log'[|log|] == at && script'[|log|] == x;
    if !halted && ByStatus(log', script', turns') {
      var j :| 0 <= j < |log'| && UserWrite(log'[j], script'[j].operand) && log'[j].turns == turns';
      assert j < |log| ==> log'[j] == log[j] && script'[j] == script[j];
    }
  }

  /** What moved the mode stack in a cycle: an interrupt before the fetch; an RFE; an exception at the end. */
  datatype Act = Act(irq: bool, rfe: bool, exn: bool)

  /** After the fetch ... */
  function Rest(a: Act): seq<M.Event> {
    (if a.rfe then [M.Rfe] else []) + (if a.exn then [M.Exception] else [])
  }

  /** ... and in the whole cycle. */
  function Events(a: Act): seq<M.Event> {
    (if a.irq then [M.Exception] else []) + Rest(a)
  }

  function Interrupted(m: M.Stack, a: Act): M.Stack { if a.irq then M.Push(m) else m }

  lemma ActRun(m: M.Stack, a: Act)
    ensures var m1 := Interrupted(m, a); var m2 := if a.rfe then M.Pop(m1) else m1;
            M.Run(m, Events(a)) == if a.exn then M.Push(m2) else m2
  {
    var irq, rfe, exn := if a.irq then [M.Exception] else [], if a.rfe then [M.Rfe] else [], if a.exn then [M.Exception] else [];
    M.RunAppend(m, irq, rfe + exn);
    M.RunAppend(Interrupted(m, a), rfe, exn);
  }

  /** The kernel returns from an exception. */
  predicate Returns(s: Snapshot) { !s.f.user && s.f.word == RFE }

  /** The kernel writes the status register. */
  predicate StatusWrite(s: Snapshot) { !s.f.user && DecodeCop(s.f.word) == MoveTo(12) }

  /** The mode stack after a cycle. */
  function ModesAfter(m: M.Stack, s: Snapshot, operand: int, a: Act): M.Stack {
    if StatusWrite(s) && !a.exn then StatusModes(operand) else M.Run(m, Events(a))
  }

  /** All exceptions and RFEs of a run. */
  ghost function History(acts: seq<Act>): seq<M.Event> {
    if acts == [] then [] else History(acts[..|acts| - 1]) + Events(acts[|acts| - 1])
  }

  ghost function ModesOver(m: M.Stack, log: seq<Snapshot>, script: seq<Input>, acts: seq<Act>): M.Stack
    requires |log| == |script| == |acts|
    decreases |log|
  {
    if log == [] then m
    else
      var n := |log| - 1;
      ModesAfter(ModesOver(m, log[..n], script[..n], acts[..n]), log[n], script[n].operand, acts[n])
  }

  ghost predicate NoStatusWrites(log: seq<Snapshot>) {
    forall k :: 0 <= k < |log| ==> !StatusWrite(log[k])
  }

  lemma {:induction false} ModesByEvents(m: M.Stack, log: seq<Snapshot>, script: seq<Input>, acts: seq<Act>)
    requires |log| == |script| == |acts| && NoStatusWrites(log)
    ensures ModesOver(m, log, script, acts) == M.Run(m, History(acts))
    decreases |log|
  {
    if log != [] {
      var n := |log| - 1;
      ModesByEvents(m, log[..n], script[..n], acts[..n]);
      M.RunAppend(m, History(acts[..n]), Events(acts[n]));
    }
  }

  /** So a run with balanced exceptions and RFEs restores the mode exactly as far as the stack reaches. */
  lemma ModesRestored(m: M.Stack, log: seq<Snapshot>, script: seq<Input>, acts: seq<Act>, h: M.History)
    requires |log| == |script| == |acts| && NoStatusWrites(log) && History(acts) == M.Events(h)
    ensures ModesOver(m, log, script, acts).cur == m.cur <==> M.Depth(h) <= 2 || m.cur == M.KERNEL
  {
    ModesByEvents(m, log, script, acts);
    M.ModeRestored(m, h);
  }

  /** Where the machine goes on: at a vector after an exception, at the address that was next after an RFE. */
  ghost predicate Ahead(s: Snapshot, a: Act, pc: int) {
    (a.exn ==> IsVector(pc)) && (a.rfe && !a.exn ==> pc == s.nextpc)
  }

  /** Cycle k of a run does to the mode stack what it should, and the next goes on from there. */
  ghost predicate ActOk(m: M.Stack, log: seq<Snapshot>, script: seq<Input>, acts: seq<Act>, k: int)
    requires |log| == |script| == |acts| && 0 <= k < |log|
  {
    var before := ModesOver(m, log[..k], script[..k], acts[..k]);
    && (acts[k].irq <==> before.cur.irq && script[k].pending) && log[k].modes == Interrupted(before, acts[k])
    && (acts[k].rfe <==> Returns(log[k])) && (acts[k].irq ==> IsVector(log[k].f.pc))
    && (k > 0 && !acts[k].irq ==> Ahead(log[k - 1], acts[k - 1], log[k].f.pc))
  }

  ghost predicate ActsOk(m: M.Stack, log: seq<Snapshot>, script: seq<Input>, acts: seq<Act>)
    requires |log| == |script| == |acts|
  {
    forall k :: 0 <= k < |log| ==> ActOk(m, log, script, acts, k)
  }

  lemma ActsOkNext(m: M.Stack, log: seq<Snapshot>, script: seq<Input>, acts: seq<Act>, at: Snapshot, x: Input, act: Act)
    requires |log| == |script| == |acts| && ActsOk(m, log, script, acts)
    requires var before := ModesOver(m, log, script, acts);
             && (act.irq <==> before.cur.irq && x.pending) && at.modes == Interrupted(before, act)
    requires (act.rfe <==> Returns(at)) && (act.irq ==> IsVector(at.f.pc))
    requires log != [] && !act.irq ==> Ahead(log[|log| - 1], acts[|log| - 1], at.f.pc)
    ensures ActsOk(m, log + [at], script + [x], acts + [act])
    ensures ModesOver(m, log + [at], script + [x], acts + [act]) == ModesAfter(ModesOver(m, log, script, acts), at, x.operand, act)
  {
    var log', script', acts' := log + [at], script + [x], acts + [act];
    assert log'[..|log|] == log && script'[..|log|] == script && acts'[..|log|] == acts;
    forall k | 0 <= k < |log'|
      ensures ActOk(m, log', script', acts', k)
    {
      if k < |log| {
        ActOkStill(m, log, script, acts, at, x, act, k);
      }
    }
  }

  lemma ActOkStill(m: M.Stack, log: seq<Snapshot>, script: seq<Input>, acts: seq<Act>, at: Snapshot, x: Input, act: Act, k: nat)
    requires |log| == |script| == |acts| && ActsOk(m, log, script, acts) && k < |log|
    ensures ActOk(m, log + [at], script + [x], acts + [act], k)
  {
    var log', script', acts' := log + [at], script + [x], acts + [act];
    assert log'[..k] == log[..k] && script'[..k] == script[..k] && acts'[..k] == acts[..k];
    assert ActOk(m, log, script, acts, k);
  }

  datatype Input = Input(pending: bool, eff: Effect, operand: int)

  /**
   A fetch, with the next address, the TLB, the address space id and the mode stack at the time, the id its page
   was looked up under, the exceptions and RFEs so far, and whether user mode was last entered by a status write.
   */
  datatype Snapshot = Snapshot(f: Fetched, nextpc: int, tlb: seq<Entry>, pid: int, key: int, modes: M.Stack, turns: nat, stale: bool)

  /** One instruction fetch: the address, where the word was read, the mode, and the word. */
  datatype Fetched = Fetched(pc: int, page: Page, off: int, user: bool, word: bv32)

  lemma PageOfOk(val: int)
    requires InWord(val)
    ensures 0 <= PageOf(val) < WORD && PageOf(val) % PAGE == 0
  {
  }

  /** What domt makes of the entry register's two halves. */
  function LoWritten(e: Entry, val: int): (r: Entry)
    requires EntryOk(e) && InWord(val)
    ensures EntryOk(r)
  {
    PageOfOk(val);
    e.(global := val / 0x100 % 2 == 1, valid := val / 0x200 % 2 == 1,
       dirty := val / 0x400 % 2 == 1, nocache := val / 0x800 % 2 == 1, pfn := PageOf(val))
  }

  function HiWritten(e: Entry, val: int): (r: Entry)
    requires EntryOk(e) && InWord(val)
    ensures EntryOk(r)
  {
    PageOfOk(val);
    e.(vpn := PageOf(val), pid := val / 64 % 64 * 64)
  }

  /** What domf reads of the entry register's two halves, and of the modes in the status register. */
  function LoRead(e: Entry): int {
    e.pfn + (if e.nocache then 0x800 else 0) + (if e.dirty then 0x400 else 0) + (if e.valid then 0x200 else 0) + (if e.global then 0x100 else 0)
  }

  function HiRead(e: Entry): int { e.vpn + e.pid }

  function ModeBits(m: M.Stack): int {
    (if m.oldest.user then 32 else 0) + (if m.oldest.irq then 16 else 0) + (if m.prev.user then 8 else 0) + (if m.prev.irq then 4 else 0)
    + (if m.cur.user then 2 else 0) + (if m.cur.irq then 1 else 0)
  }

  /** What is written is read back, but for the bits that no register has. */
  lemma EntryReadsBack(e: Entry, val: int)
    requires EntryOk(e) && InWord(val)
    ensures LoRead(LoWritten(e, val)) == val - val % 0x100 && HiRead(LoWritten(e, val)) == HiRead(e)
    ensures HiRead(HiWritten(e, val)) == val - val % 64 && LoRead(HiWritten(e, val)) == LoRead(e)
  {
    LowBit(val, 0x800);
    LowBit(val, 0x400);
    LowBit(val, 0x200);
    LowBit(val, 0x100);
    RemainderIs(val, PAGE, val / 64 / 64, val / 64 % 64 * 64 + val % 64);
  }

  lemma StatusReadsBack(val: int)
    requires InWord(val)
    ensures ModeBits(StatusModes(val)) == val % 64
  {
    LowBit(val, 32);
    LowBit(val, 16);
    LowBit(val, 8);
    LowBit(val, 4);
    LowBit(val, 2);
    LowBit(val, 1);
  }

  lemma LowBit(val: nat, b: nat)
    requires b > 0
    ensures val % (2 * b) == val % b + if Bit(val, b) then b else 0
  {
    var h := val / b;
    assert val == (h / 2 * 2 + h % 2) * b + val % b;
    RemainderIs(val, 2 * b, h / 2, h % 2 * b + val % b);
  }

  /** The context register after a fault: the page table base as the kernel set it, then the page's number, times four. */
  lemma ContextPoints(context: int, vaddr: int)
    requires InWord(context) && InWord(vaddr)
    ensures var r := ContextAt(context, vaddr);
            r / 0x20_0000 == context / 0x20_0000 && r % 0x20_0000 == vaddr % 0x8000_0000 / PAGE * 4
  {
    var page := vaddr / 0x1000 % 0x8_0000;
    assert page == vaddr % 0x8000_0000 / 0x1000;
    RemainderIs(ContextAt(context, vaddr), 0x20_0000, context / 0x20_0000, page * 4);
  }

  predicate EffectOk(eff: Effect) {
    match eff
    case Branch(target) => InWord(target)
    case Load(vaddr, _) => InWord(vaddr)
    case Store(vaddr, _, _) => InWord(vaddr)
    case StorePart(vaddr, _, _, _) => InWord(vaddr)
    case _ => true
  }

  lemma NextAligned(a: int)
    requires InWord(a) && a % 4 == 0
    ensures InWord((a + 4) % WORD) && (a + 4) % WORD % 4 == 0
    ensures (a + 4) % WORD % PAGE != 0 ==> (a + 4) % WORD == a + 4 && (a + 4) % PAGE == a % PAGE + 4
    ensures (a + 4) % WORD % PAGE != 0 ==> (KSEG0 <= a + 4 < KSEG2 <==> KSEG0 <= a < KSEG2)
  {
    if a + 4 < WORD {
      WithinWord(a + 4);
      if (a + 4) % PAGE != 0 {
        StepInPage(a);
        SegmentBoundary(a, a / PAGE, a % PAGE);
      }
    } else {
      LastWord(a);
    }
  }

  lemma WithinWord(x: int)
    requires 0 <= x < WORD
    ensures x % WORD == x
  {
  }

  /** Segment boundaries are page boundaries. */
  lemma SegmentBoundary(a: int, k: int, off: int)
    requires a == k * PAGE + off && 0 <= off && off + 4 < PAGE
    ensures KSEG0 <= a + 4 < KSEG2 <==> KSEG0 <= a < KSEG2
  {
  }

  lemma LastWord(a: int)
    requires InWord(a) && a % 4 == 0 && a + 4 >= WORD
    ensures (a + 4) % WORD == 0
  {
  }

  lemma WriteAmbiguity(tlb: seq<Entry>, ix: int, e: Entry)
    requires 0 <= ix < |tlb|
    ensures var tlb' := tlb[ix := e];
            NoDups(tlb) ==> (NoDups(tlb') <==> forall i :: 0 <= i < |tlb'| && i != ix ==> !Conflict(tlb'[ix], tlb'[i]))
  {
    var tlb' := tlb[ix := e];
    forall i | 0 <= i < |tlb'| && i != ix
      ensures Conflict(tlb'[ix], tlb'[i]) == Conflict(tlb'[i], tlb'[ix])
    {
    }
    if NoDups(tlb) && forall i :: 0 <= i < |tlb'| && i != ix ==> !Conflict(tlb'[ix], tlb'[i]) {
      forall i, j | 0 <= i < j < |tlb'|
        ensures !Conflict(tlb'[i], tlb'[j])
      {
        if i != ix && j != ix {
          assert !Conflict(tlb[i], tlb[j]);
        }
      }
    }
  }
}
