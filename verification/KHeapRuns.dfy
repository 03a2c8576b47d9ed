/**
 The kernel heap over whole runs: clients that allocate, store into their blocks and free them,
 on top of the page allocator of os161-1.11/kern/arch/mips/mips/dumbvm.c, which takes pages off
 the bottom of free memory and never gets any back.
 */
module KHeapRuns {
  import opened Prelude
  import opened IndexList
  import opened KHeap
  import opened KHeapAllocator

  const MAX_RAM := 508 * 1024 * 1024

  /** Free physical memory: firstpaddr and lastpaddr. */
  datatype Ram = Ram(first: int, last: int)

  predicate RamOk(r: Ram) {
    0 < r.first <= r.last <= MAX_RAM && r.first % PAGE_SIZE == 0
  }

  /** alloc_kpages by way of ram_stealmem, in 32 bits: the answer, and the memory then free. */
  function Steal(r: Ram, npages: nat): (int, Ram) {
    var end := (r.first + npages * PAGE_SIZE % ADDRESS_SPACE) % ADDRESS_SPACE;
    if end > r.last then (0, r) else (KSEG0 + r.first, Ram(end, r.last))
  }

  /** The test in ram_stealmem means what it says: there are pages to take, and their end does not wrap. */
  predicate Unwrapped(r: Ram, npages: nat) {
    1 <= npages && r.first + PAGE_SIZE * npages < ADDRESS_SPACE
  }

  /** Every run of pages ends at or below limit. */
  ghost predicate Under(h: Pools, limit: int) {
    forall k :: k in h.kpages ==> End(h, k) <= limit
  }

  /** An answer of alloc_kpages is memory that nobody has exactly if its test did not wrap. */
  lemma StealExactly(h: Pools, r: Ram, n: nat)
    requires TableOk(h) && GrantsOk(h) && RamOk(r) && Under(h, KSEG0 + r.first) && n < ADDRESS_SPACE / PAGE_SIZE
    ensures var (page, r') := Steal(r, n);
            page !in h.kpages && (page != 0 ==> (Grantable(h, page, n) <==> Unwrapped(r, n)))
    ensures var (page, r') := Steal(r, n);
            if page == 0 then r' == r
            else Unwrapped(r, n) ==> RamOk(r') && r' == Ram(r.first + PAGE_SIZE * n, r.last)
  {
    assert n * PAGE_SIZE < ADDRESS_SPACE;
    var (page, r') := Steal(r, n);
    forall k | k in h.kpages
      ensures 0 < k < KSEG0 + r.first
    {
      assert k < End(h, k);
    }
    if page != 0 && Unwrapped(r, n) {
      assert r'.first == r.first + PAGE_SIZE * n;
      Aligned(r.first, n);
    }
  }

  lemma Aligned(first: int, n: nat)
    requires first % PAGE_SIZE == 0
    ensures (first + PAGE_SIZE * n) % PAGE_SIZE == 0 && (KSEG0 + first) % PAGE_SIZE == 0
  {
  }

  /** A block in a client's hands: where it is, the size asked for, and what the client has stored in it. */
  datatype Held = Held(ptr: int, size: nat, words: map<nat, int>)

  /** What clients do: allocate, free the i-th block held, store into the i-th block held. */
  datatype Request = Malloc(sz: nat) | Free(i: nat) | Store(i: nat, off: nat, v: int)

  /** A request that leaves room in the address space for all of memory. */
  predicate Modest(q: Request, ram: Ram) {
    q.Malloc? ==> q.sz + ram.last <= ADDRESS_SPACE - PAGE_SIZE
  }

  /** The clients' own account of their blocks, given kmalloc's answer. */
  function After(held: seq<Held>, q: Request, answer: int): seq<Held> {
    match q
    case Malloc(sz) => if answer == 0 then held else held + [Held(answer, sz, map[])]
    case Free(i) => if i < |held| then held[..i] + held[i + 1..] else held
    case Store(i, off, v) =>
      if i < |held| && off < held[i].size then held[i := held[i].(words := held[i].words[off := v])] else held
  }

  function Clients(script: seq<Request>, answers: seq<int>): seq<Held>
    requires |script| == |answers|
  {
    if script == [] then []
    else
      var n := |script| - 1;
      After(Clients(script[..n], answers[..n]), script[n], answers[n])
  }

  /** The clients hold exactly the live blocks. */
  ghost predicate InHand(live: map<int, Block>, held: seq<Held>) {
    && (forall i :: 0 <= i < |held| ==> held[i].ptr in live && live[held[i].ptr].size == held[i].size)
    && (forall i, j :: 0 <= i < j < |held| ==> held[i].ptr != held[j].ptr)
    && (forall a :: a in live ==> exists i :: 0 <= i < |held| && held[i].ptr == a)
  }

  /** Every block holds what its client stored in it. */
  ghost predicate Intact(mem: Memory, held: seq<Held>) {
    forall i :: 0 <= i < |held| ==> BlockIntact(mem, held[i])
  }

  ghost predicate BlockIntact(mem: Memory, b: Held) {
    forall off :: off in b.words ==> off < b.size && Word(mem, b.ptr + off) == b.words[off]
  }

  /** No two blocks held share a byte. */
  ghost predicate Apart(held: seq<Held>) {
    forall i, j :: 0 <= i < |held| && 0 <= j < |held| && i != j ==>
      held[i].ptr + held[i].size <= held[j].ptr || held[j].ptr + held[j].size <= held[i].ptr
  }

  lemma HeldApart(h: Pools, held: seq<Held>)
    requires Consistent(h) && InHand(h.live, held)
    ensures Apart(held)
  {
    forall i, j | 0 <= i < |held| && 0 <= j < |held| && i != j
      ensures held[i].ptr + held[i].size <= held[j].ptr || held[j].ptr + held[j].size <= held[i].ptr
    {
      var a, b := held[i].ptr, held[j].ptr;
      InsideRun(h, a);
      InsideRun(h, b);
      if a < b {
        LiveBlocksDisjoint(h, a, b);
      } else {
        LiveBlocksDisjoint(h, b, a);
      }
    }
  }

  /** Steps that leave the bytes of live blocks alone leave the clients' words alone. */
  lemma IntactKept(h: Pools, h': Pools, held: seq<Held>, held': seq<Held>)
    requires Consistent(h) && Consistent(h') && BytesKept(h, h') && InHand(h.live, held) && Intact(h.mem, held)
    requires forall i :: 0 <= i < |held'| ==> held'[i].words == map[] || (held'[i] in held && held'[i].ptr in h'.live)
    ensures Intact(h'.mem, held')
  {
    forall i | 0 <= i < |held'|
      ensures BlockIntact(h'.mem, held'[i])
    {
      if held'[i].words != map[] {
        var j :| 0 <= j < |held| && held[j] == held'[i];
        BlockKept(h, h', held[j]);
      }
    }
  }

  lemma BlockKept(h: Pools, h': Pools, b: Held)
    requires Consistent(h) && Consistent(h') && BytesKept(h, h') && b.ptr in h.live && b.ptr in h'.live
    requires h.live[b.ptr].size == b.size && BlockIntact(h.mem, b)
    ensures BlockIntact(h'.mem, b)
  {
    InsideRun(h, b.ptr);
    forall off | off in b.words
      ensures Word(h'.mem, b.ptr + off) == b.words[off]
    {
      assert b.ptr <= b.ptr + off < b.ptr + Capacity(h, b.ptr);
    }
  }

  lemma InHandAfterMalloc(live: map<int, Block>, held: seq<Held>, ptr: int, b: Block)
    requires InHand(live, held) && ptr !in live
    ensures InHand(live[ptr := b], held + [Held(ptr, b.size, map[])])
  {
    var live', held' := live[ptr := b], held + [Held(ptr, b.size, map[])];
    forall a | a in live'
      ensures exists i :: 0 <= i < |held'| && held'[i].ptr == a
    {
      if a == ptr {
        assert held'[|held|].ptr == a;
      } else {
        var i :| 0 <= i < |held| && held[i].ptr == a;
        assert held'[i].ptr == a;
      }
    }
  }

  lemma InHandAfterFree(live: map<int, Block>, held: seq<Held>, i: nat)
    requires InHand(live, held) && i < |held|
    ensures InHand(live - {held[i].ptr}, held[..i] + held[i + 1..])
  {
    var live', held' := live - {held[i].ptr}, held[..i] + held[i + 1..];
    forall a | a in live'
      ensures exists k :: 0 <= k < |held'| && held'[k].ptr == a
    {
      var k :| 0 <= k < |held| && held[k].ptr == a;
      assert held'[if k < i then k else k - 1] == held[k];
    }
  }

  lemma IntactAfterStore(h: Pools, held: seq<Held>, i: nat, off: nat, v: int, mem': Memory)
    requires Consistent(h) && InHand(h.live, held) && Intact(h.mem, held) && i < |held| && off < held[i].size
    requires Word(mem', held[i].ptr + off) == v
    requires forall w :: w != held[i].ptr + off ==> Word(mem', w) == Word(h.mem, w)
    ensures Intact(mem', After(held, Store(i, off, v), 0))
  {
    var held' := After(held, Store(i, off, v), 0);
    HeldApart(h, held);
    forall j | 0 <= j < |held'|
      ensures BlockIntact(mem', held'[j])
    {
      if j == i {
        StoreHere(h.mem, mem', held[i], off, v);
      } else {
        StoreElsewhere(h.mem, mem', held[j], held[i].ptr + off);
      }
    }
  }

  lemma StoreHere(mem: Memory, mem': Memory, b: Held, off: nat, v: int)
    requires BlockIntact(mem, b) && off < b.size && Word(mem', b.ptr + off) == v
    requires forall w :: w != b.ptr + off ==> Word(mem', w) == Word(mem, w)
    ensures BlockIntact(mem', b.(words := b.words[off := v]))
  {
  }

  lemma StoreElsewhere(mem: Memory, mem': Memory, b: Held, a: int)
    requires BlockIntact(mem, b) && (a < b.ptr || b.ptr + b.size <= a)
    requires forall w :: w != a ==> Word(mem', w) == Word(mem, w)
    ensures BlockIntact(mem', b)
  {
  }

  /** The heap serves its clients: it is sound, its blocks are theirs, and their data are intact. */
  ghost predicate Serves(h: Heap, held: seq<Held>)
    reads h, h.refs, h.nextSame, h.nextAll, h.inuse, h.sizebases
  {
    h.Valid() && InHand(h.live, held) && Intact(h.mem, held)
  }

  /** The heap serves its clients out of free memory that lies above all its pages. */
  ghost predicate Running(h: Heap, held: seq<Held>, ram: Ram)
    reads h, h.refs, h.nextSame, h.nextAll, h.inuse, h.sizebases
  {
    Serves(h, held) && RamOk(ram) && Under(h.View(), KSEG0 + ram.first)
  }

  /** kmalloc, with alloc_kpages answering it. */
  method MallocFrom(h: Heap, ram: Ram, sz: nat) returns (answer: int, ram': Ram, broken: bool)
    requires h.Valid() && RamOk(ram) && Under(h.View(), KSEG0 + ram.first) && sz < ADDRESS_SPACE
    modifies h, h.refs, h.nextSame, h.nextAll, h.inuse, h.sizebases
    ensures broken <==> !h.Valid()
    ensures broken <==> sz >= LARGEST_SUBPAGE_SIZE && answer != 0 && !Unwrapped(ram, PagesFor(sz))
    ensures !broken ==> BytesKept(old(h.View()), h.View())
    ensures !broken ==> RamOk(ram') && ram'.last == ram.last && Under(h.View(), KSEG0 + ram'.first)
    ensures if answer == 0 then h.live == old(h.live)
            else answer in h.live && h.live == old(h.live)[answer := Block(sz, h.live[answer].pr)]
                 && (h.live[answer].pr == NULL <==> sz >= LARGEST_SUBPAGE_SIZE)
    ensures !broken && answer != 0 ==> answer !in old(h.live)
    ensures sz >= LARGEST_SUBPAGE_SIZE ==> (answer, ram') == Steal(ram, PagesFor(sz))
    ensures sz < LARGEST_SUBPAGE_SIZE ==> Issued(old(h.View()), h.View(), sz, Steal(ram, 1).0, answer, ram' != ram)
  {
    var n := PagesAsked(sz);
    assert n < ADDRESS_SPACE / PAGE_SIZE;
    var (page, rest) := Steal(ram, n);
    ghost var h0 := h.View();
    StealExactly(h0, ram, n);
    var took;
    answer, took := h.Kmalloc(sz, page);
    ram' := if took then rest else ram;
    broken := sz >= LARGEST_SUBPAGE_SIZE && page != 0 && !Unwrapped(ram, n);
    if took && !broken {
      UnderTook(h0, h.View(), page, n, KSEG0 + ram.first);
    }
  }

  /** A new heap, asked for the largest size: it answers with the first free page, takes none, and is unsound. */
  method LargestInstance(ram: Ram) returns (h: Heap)
    requires RamOk(ram)
    ensures !h.Valid() && h.live == map[KSEG0 + ram.first := Block(0xffff_ffff, NULL)]
  {
    h := new Heap();
    PagesForCovers(0xffff_ffff);
    var answer, ram', broken := MallocFrom(h, ram, 0xffff_ffff);
    assert answer == KSEG0 + ram.first && ram' == ram by {
      StealNothing(ram);
    }
    assert h.live[answer] == Block(0xffff_ffff, NULL);
  }

  lemma StealNothing(ram: Ram)
    requires RamOk(ram)
    ensures Steal(ram, 0) == (KSEG0 + ram.first, ram)
  {
  }

  lemma UnderTook(h: Pools, h': Pools, page: int, n: nat, limit: int)
    requires Under(h, limit) && limit <= page && page in h'.kpages && h'.kpages == h.kpages[page := Grant(n, h'.kpages[page].pr)]
    ensures Under(h', page + PAGE_SIZE * n)
  {
    forall k | k in h'.kpages
      ensures End(h', k) <= page + PAGE_SIZE * n
    {
      assert k != page ==> k in h.kpages && End(h', k) == End(h, k);
    }
  }

  method ServeMalloc(h: Heap, ram: Ram, ghost held: seq<Held>, sz: nat) returns (answer: int, ram': Ram, broken: bool)
    requires Running(h, held, ram) && sz < ADDRESS_SPACE
    modifies h, h.refs, h.nextSame, h.nextAll, h.inuse, h.sizebases
    ensures broken <==> !h.Valid()
    ensures broken <==> sz >= LARGEST_SUBPAGE_SIZE && answer != 0 && !Unwrapped(ram, PagesFor(sz))
    ensures !broken ==> Running(h, After(held, Malloc(sz), answer), ram') && ram'.last == ram.last
  {
    ghost var h0 := h.View();
    answer, ram', broken := MallocFrom(h, ram, sz);
    if !broken {
      MallocServed(h0, h.View(), held, sz, answer);
    }
  }

  lemma MallocServed(h: Pools, h': Pools, held: seq<Held>, sz: nat, answer: int)
    requires Consistent(h) && Consistent(h') && BytesKept(h, h') && InHand(h.live, held) && Intact(h.mem, held)
    requires if answer == 0 then h'.live == h.live
             else answer !in h.live && answer in h'.live && h'.live == h.live[answer := Block(sz, h'.live[answer].pr)]
    ensures InHand(h'.live, After(held, Malloc(sz), answer)) && Intact(h'.mem, After(held, Malloc(sz), answer))
  {
    if answer != 0 {
      InHandAfterMalloc(h.live, held, answer, h'.live[answer]);
    }
    IntactKept(h, h', held, After(held, Malloc(sz), answer));
  }

  method ServeFree(h: Heap, ghost ram: Ram, held: seq<Held>, i: nat)
    requires Running(h, held, ram)
    modifies h, h.refs, h.nextSame, h.nextAll, h.inuse, h.sizebases
    ensures Running(h, After(held, Free(i), 0), ram)
  {
    if i < |held| {
      ghost var h0 := h.View();
      h.Kfree(held[i].ptr);
      InHandAfterFree(h0.live, held, i);
      IntactKept(h0, h.View(), held, After(held, Free(i), 0));
      assert forall k :: k in h.kpages ==> k in h0.kpages && h.kpages[k] == h0.kpages[k];
    }
  }

  method ServeStore(h: Heap, ghost ram: Ram, held: seq<Held>, i: nat, off: nat, v: int)
    requires Running(h, held, ram)
    modifies h`mem
    ensures Running(h, After(held, Store(i, off, v), 0), ram)
  {
    if i < |held| && off < held[i].size {
      ghost var h0 := h.View();
      InsideRun(h0, held[i].ptr);
      h.ClientStore(held[i].ptr, held[i].ptr + off, v);
      StoreServed(h0, held, i, off, v, h.mem);
    }
  }

  lemma StoreServed(h: Pools, held: seq<Held>, i: nat, off: nat, v: int, mem': Memory)
    requires Consistent(h) && InHand(h.live, held) && Intact(h.mem, held) && i < |held| && off < held[i].size
    requires Word(mem', held[i].ptr + off) == v
    requires forall w :: w != held[i].ptr + off ==> Word(mem', w) == Word(h.mem, w)
    ensures InHand(h.live, After(held, Store(i, off, v), 0)) && Intact(mem', After(held, Store(i, off, v), 0))
  {
    IntactAfterStore(h, held, i, off, v, mem');
    var held' := After(held, Store(i, off, v), 0);
    assert forall k :: 0 <= k < |held| ==> held'[k].ptr == held[k].ptr && held'[k].size == held[k].size;
  }

  /** One request; the run is over if it leaves the heap unsound. */
  method Serve(h: Heap, ram: Ram, held: seq<Held>, q: Request) returns (answer: int, ram': Ram, broken: bool)
    requires Running(h, held, ram) && (q.Malloc? ==> q.sz < ADDRESS_SPACE)
    modifies h, h.refs, h.nextSame, h.nextAll, h.inuse, h.sizebases
    ensures broken <==> !h.Valid()
    ensures broken <==> q.Malloc? && q.sz >= LARGEST_SUBPAGE_SIZE && answer != 0 && !Unwrapped(ram, PagesFor(q.sz))
    ensures !broken ==> Running(h, After(held, q, answer), ram') && ram'.last == ram.last
  {
    answer, ram', broken := 0, ram, false;
    match q {
      case Malloc(sz) =>
        answer, ram', broken := ServeMalloc(h, ram, held, sz);
      case Free(i) =>
        ServeFree(h, ram, held, i);
      case Store(i, off, v) =>
        ServeStore(h, ram, held, i, off, v);
    }
  }

  /**
   Whole runs: as long as alloc_kpages's test does not wrap, the heap stays sound, the clients'
   blocks never overlap, and each block holds what its client stored in it. The run stops where a
   request does wrap, and there the heap is unsound; requests small enough for the machine never do.
   */
  method Run(h: Heap, ram: Ram, script: seq<Request>) returns (held: seq<Held>, answers: seq<int>, broken: bool)
    requires h.Valid() && h.live == map[] && h.kpages == map[] && RamOk(ram)
    requires forall k :: 0 <= k < |script| && script[k].Malloc? ==> script[k].sz < ADDRESS_SPACE
    modifies h, h.refs, h.nextSame, h.nextAll, h.inuse, h.sizebases
    ensures |answers| <= |script| && (broken || |answers| == |script|)
    ensures held == Clients(script[..|answers|], answers)
    ensures broken <==> !h.Valid()
    ensures !broken ==> Serves(h, held) && Apart(held)
    ensures (forall k :: 0 <= k < |script| ==> Modest(script[k], ram)) ==> !broken
  {
    held, answers, broken := [], [], false;
    var r, k := ram, 0;
    while k < |script| && !broken
      invariant 0 <= k <= |script| && |answers| == k && held == Clients(script[..k], answers)
      invariant broken <==> !h.Valid()
      invariant !broken ==> Running(h, held, r) && r.last == ram.last
      invariant broken ==> 1 <= k && !Modest(script[k - 1], ram)
      decreases |script| - k
    {
      var answer;
      if Modest(script[k], r) && script[k].Malloc? && script[k].sz >= LARGEST_SUBPAGE_SIZE {
        SmallUnwrapped(r, script[k].sz);
      }
      answer, r, broken := Serve(h, r, held, script[k]);
      ClientsNext(script, k, answers, answer);
      held := After(held, script[k], answer);
      answers := answers + [answer];
      k := k + 1;
    }
    if !broken {
      HeldApart(h.View(), held);
    }
  }

  lemma ClientsNext(script: seq<Request>, k: nat, answers: seq<int>, answer: int)
    requires k < |script| && |answers| == k
    ensures Clients(script[..k + 1], answers + [answer]) == After(Clients(script[..k], answers), script[k], answer)
  {
    assert script[..k + 1][..k] == script[..k] && (answers + [answer])[..k] == answers;
  }

  lemma SmallUnwrapped(r: Ram, sz: nat)
    requires RamOk(r) && LARGEST_SUBPAGE_SIZE <= sz
    requires sz + r.last <= ADDRESS_SPACE - PAGE_SIZE
    ensures Unwrapped(r, PagesFor(sz))
  {
  }
}
