/**
 Programs for the CPU of MipsCpu whose last fetch is not where its address translates to:
 the two ways in which FreshExactly's condition fails, reached by cpu_cycle from reset.
 */
module MipsInstances {

  import opened MipsTlb
  import opened MipsCpu

  const KERNEL_START := 0x8000_0200

  const MTC0_ENTRYLO: bv32 := 0x40801000
  const MTC0_ENTRYHI: bv32 := 0x40805000
  const MTC0_STATUS: bv32 := 0x40806000
  const TLBWI: bv32 := 0x42000002
  const JR: bv32 := 0x01000008
  const NOP: bv32 := 0

  /** A program that writes the status register. */
  function StatusProgram(): map<int, bv32> { map[0x200 := MTC0_STATUS] }

  /** A program that maps the first page of kseg2 to the second frame, goes there, and writes the entry register. */
  function FrameProgram(): map<int, bv32> {
    map[0x200 := MTC0_ENTRYHI, 0x204 := MTC0_ENTRYLO, 0x208 := TLBWI, 0x20c := JR, 0x210 := NOP, 0x1000 := MTC0_ENTRYHI]
  }

  lemma Words()
    ensures DecodeCop(MTC0_ENTRYLO) == MoveTo(2) && DecodeCop(MTC0_ENTRYHI) == MoveTo(10) && DecodeCop(MTC0_STATUS) == MoveTo(12)
    ensures DecodeCop(TLBWI) == Tlbwi && DecodeCop(JR) == NotCop && DecodeCop(NOP) == NotCop
  {
  }

  /** The kernel is at `at`, on a page with room for two more words after it. */
  ghost predicate Runs(c: Cpu, ram: map<int, bv32>, at: int, page: Page, off: int)
    reads c
  {
    && c.Valid() && c.ramsize == 0x2000 && c.ram == ram && !c.modes.cur.user
    && c.pc == at && c.nextpc == at + 4 && c.pcpage == c.nextpcpage == page && c.pcoff == off && c.nextpcoff == off + 4
    && c.tlbindex == 0
  }

  method Start(ram: map<int, bv32>) returns (c: Cpu)
    ensures fresh(c) && Runs(c, ram, KERNEL_START, Ram(0), 0x200)
    ensures c.tlb == seq(NTLB, i => ResetEntry(i)) && c.tlbentry.pid == 0 && !c.stale
  {
    c := new Cpu(0x2000, ram);
    assert c.Reaches(KERNEL_START) && c.Reaches(KERNEL_START + 4);
    var _ := c.EntryPoint(KERNEL_START);
  }

  /** One mtc0. */
  method MoveCycle(c: Cpu, reg: bv32, val: int) returns (ghost at: Snapshot)
    requires c.Valid() && c.Plain() && !c.modes.cur.user && InWord(val) && KnownRegister(reg) && DecodeCop(c.Fetch(c.pcpage, c.pcoff)) == MoveTo(reg)
    modifies c
    ensures c.Valid() && at == old(c.Snap()) && c.View() == Written0(Along(old(c.View())), reg, val)
  {
    var _, _, _, s, _ := c.Cycle(false, Alu, val);
    at := s;
  }

  /** A kernel in kseg0 that writes user mode into the status register: the next fetch is not fresh. */
  method StaleStatus() returns (c: Cpu, ghost log: seq<Snapshot>)
    ensures |log| == 2 && log[0].f.word == MTC0_STATUS && !log[0].f.user
    ensures log[1].f.pc == KERNEL_START + 4 && log[1].f.user && log[1].stale && !Fresh(c.ramsize, log[1])
  {
    Words();
    c := Start(StatusProgram());
    ghost var first := MoveCycle(c, 12, 2);
    var _, _, _, second, _ := c.Cycle(false, Alu, 0);
    StaleKernelFetch(c.ramsize, second);
    log := [first, second];
  }

  /** The TLB after reset, with kseg2's first page mapped to the second frame for address space 0. */
  function Kseg2Entry(): Entry { Entry(false, true, false, false, 0x1000, KSEG2, 0) }

  function Kseg2Tlb(): seq<Entry> { seq(NTLB, i => ResetEntry(i))[0 := Kseg2Entry()] }

  /** The two mtc0s that fill the entry register. */
  method FillEntry() returns (c: Cpu, ghost log: seq<Snapshot>)
    ensures fresh(c) && Runs(c, FrameProgram(), KERNEL_START + 8, Ram(0), 0x208) && |log| == 2
    ensures c.tlb == seq(NTLB, i => ResetEntry(i)) && c.tlbentry == Kseg2Entry()
  {
    Words();
    c := Start(FrameProgram());
    ghost var a := MoveCycle(c, 10, KSEG2);
    ghost var b := MoveCycle(c, 2, 0x1200);
    log := [a, b];
  }

  /** The tlbwi. */
  method MapKseg2() returns (c: Cpu, ghost log: seq<Snapshot>)
    ensures fresh(c) && Runs(c, FrameProgram(), KERNEL_START + 12, Ram(0), 0x20c) && |log| == 3
    ensures c.tlb == Kseg2Tlb() && c.tlbentry.pid == 0
  {
    Words();
    c, log := FillEntry();
    assert c.Reaches(KERNEL_START + 12) && c.Reaches(KERNEL_START + 16);
    var _, _, _, s, _ := c.Cycle(false, Alu, 0);
    log := log + [s];
  }

  /** The jump. */
  method JumpKseg2() returns (c: Cpu, ghost log: seq<Snapshot>)
    ensures fresh(c) && c.Valid() && c.ramsize == 0x2000 && c.ram == FrameProgram() && !c.modes.cur.user && c.tlbindex == 0 && |log| == 4
    ensures c.nextpc == KSEG2 && c.pcpage == Ram(0) && c.pcoff == 0x210 && c.nextpcpage == Ram(0x1000) && c.nextpcoff == 0
    ensures c.tlb == Kseg2Tlb() && c.nextPid == 0
  {
    Words();
    c, log := MapKseg2();
    assert c.Reaches(KSEG2) by {
      assert Matches(c.tlb[0], KSEG2, 0);
    }
    var _, _, _, s, _ := c.Cycle(false, Branch(KSEG2), 0);
    log := log + [s];
  }

  /** Its delay slot. */
  method EnterKseg2() returns (c: Cpu, ghost log: seq<Snapshot>)
    ensures fresh(c) && Runs(c, FrameProgram(), KSEG2, Ram(0x1000), 0) && |log| == 5
    ensures c.tlb == Kseg2Tlb() && c.pcPid == c.nextPid == 0
  {
    Words();
    c, log := JumpKseg2();
    var _, _, _, s, _ := c.Cycle(false, Alu, 0);
    log := log + [s];
  }

  /** A kernel in kseg2 that changes the address space id: the next fetch is not fresh. */
  method StaleFrame() returns (c: Cpu, ghost log: seq<Snapshot>)
    ensures |log| == 7 && log[5].f.word == MTC0_ENTRYHI && log[5].f.pc == KSEG2
    ensures log[6].f.pc == KSEG2 + 4 && log[6].f.page == Ram(0x1000) && !log[6].f.user && !Fresh(c.ramsize, log[6])
  {
    Words();
    c, log := EnterKseg2();
    ghost var s := MoveCycle(c, 10, 0x40);
    var _, _, _, t, _ := c.Cycle(false, Alu, 0);
    log := log + [s, t];
    assert forall i :: 0 <= i < NTLB ==> !Matches(t.tlb[i], KSEG2, 0x40);
    FreshExactly(c.ramsize, t);
  }
}
