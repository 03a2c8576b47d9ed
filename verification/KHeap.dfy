/**
 The kernel heap (os161-1.11/kern/lib/kheap.c): a pool allocator that cuts pages into
 equal blocks, threads each page's free blocks through the first word of the blocks
 themselves, and hands a page back as soon as its last live block is freed.  Requests
 of LARGEST_SUBPAGE_SIZE bytes and more go straight to the page allocator.
 */

module KHeap {
  import opened Prelude
  import opened IndexList

  const PAGE_SIZE := 4096
  const NSIZES := 8
  const SIZES: seq<int> := [16, 32, 64, 128, 256, 512, 1024, 2048]
  const LARGEST_SUBPAGE_SIZE := 2048
  const NPAGEREFS := 256
  const INVALID_OFFSET := 0xffff
  const DEADBEEF := 0xdeadbeef
  const ADDRESS_SPACE := 0x1_0000_0000

  /** Kernel memory, word by word; a word never written reads as 0. */
  type Memory = map<int, int>

  function Word(mem: Memory, a: int): int {
    if a in mem then mem[a] else 0
  }

  /**
   The accounting of one page.  The source packs `page` and `kind` into one word (see
   PackingIsLossless); the two list links are kept in arrays of their own.
   */
  datatype PageRef = PageRef(page: int, kind: int, freeOff: int, nfree: int)

  const PAGE_FRAME: bv32 := 0xfffff000

  /** MKPAB, PR_PAGEADDR and PR_BLOCKTYPE: a page address and a block type share one word. */
  lemma PackingIsLossless(pa: bv32, blk: bv32)
    requires pa & !PAGE_FRAME == 0 && blk < NSIZES as bv32
    ensures var pab := (pa & PAGE_FRAME) | (blk & !PAGE_FRAME);
            pab & PAGE_FRAME == pa && pab & !PAGE_FRAME == blk
  {
  }

  function BlockSize(t: int): (size: int)
    requires 0 <= t < NSIZES
    ensures 16 <= size <= LARGEST_SUBPAGE_SIZE
  {
    SIZES[t]
  }

  function PerPage(t: int): int
    requires 0 <= t < NSIZES
  {
    PAGE_SIZE / BlockSize(t)
  }

  predicate IsBlock(page: int, kind: int, a: int)
    requires 0 <= kind < NSIZES
  {
    && page <= a < page + PAGE_SIZE
    && (a - page) % BlockSize(kind) == 0
  }

  /** A run of pages obtained from alloc_kpages; `pr` is the pageref that carves it up, or NULL. */
  datatype Grant = Grant(npages: nat, pr: int)

  /** A block in a client's hands: the size asked for and the pageref it came from, or NULL. */
  datatype Block = Block(size: nat, pr: int)

  /** What the allocator's memory means; `free[p]` is page p's free list in list order. */
  datatype Pools = Pools(refs: seq<PageRef>, all: seq<int>, free: seq<seq<int>>, mem: Memory,
                         kpages: map<int, Grant>, live: map<int, Block>)

  ghost predicate Linked(mem: Memory, fl: seq<int>) {
    forall k :: 0 <= k < |fl| ==> Word(mem, fl[k]) == EntryAt(fl, k + 1)
  }

  ghost function EntryAt(fl: seq<int>, k: nat): int {
    if k < |fl| then fl[k] else 0
  }

  ghost predicate PageOk(r: PageRef, fl: seq<int>, mem: Memory) {
    && 0 <= r.kind < NSIZES
    && r.nfree == |fl|
    && r.freeOff == (if fl == [] then INVALID_OFFSET else fl[0] - r.page)
    && NoDup(fl)
    && (forall k :: 0 <= k < |fl| ==> IsBlock(r.page, r.kind, fl[k]))
    && Linked(mem, fl)
  }

  ghost predicate TableOk(h: Pools) {
    && |h.refs| == |h.free| == NPAGEREFS
    && forall p :: p in h.all ==> 0 <= p < NPAGEREFS && 0 <= h.refs[p].kind < NSIZES
  }

  ghost predicate PagesOk(h: Pools)
    requires TableOk(h)
  {
    forall p :: p in h.all ==> PageOk(h.refs[p], h.free[p], h.mem)
  }

  /** The pages in use are aligned, pairwise disjoint, and each is known to its pageref. */
  ghost predicate GrantsOk(h: Pools)
    requires TableOk(h)
  {
    && (forall k :: k in h.kpages ==>
          0 < k && k % PAGE_SIZE == 0 && 1 <= h.kpages[k].npages && End(h, k) <= ADDRESS_SPACE)
    && (forall j, k :: j in h.kpages && k in h.kpages && j < k ==> End(h, j) <= k)
    && (forall k :: k in h.kpages && h.kpages[k].pr != NULL ==>
          h.kpages[k].npages == 1 && h.kpages[k].pr in h.all && h.refs[h.kpages[k].pr].page == k)
    && (forall p :: p in h.all ==>
          h.refs[p].page in h.kpages && h.kpages[h.refs[p].page].pr == p)
  }

  ghost function End(h: Pools, k: int): int
    requires k in h.kpages
  {
    k + PAGE_SIZE * h.kpages[k].npages
  }

  ghost predicate WholePagesLive(h: Pools) {
    && (forall a :: a in h.live && h.live[a].pr == NULL ==>
          a in h.kpages && h.kpages[a].pr == NULL && h.live[a].size <= PAGE_SIZE * h.kpages[a].npages)
    && (forall k :: k in h.kpages && h.kpages[k].pr == NULL ==> k in h.live && h.live[k].pr == NULL)
  }

  ghost predicate BlocksLive(h: Pools)
    requires TableOk(h)
  {
    forall a :: a in h.live && h.live[a].pr != NULL ==>
      h.live[a].pr in h.all && BlockOf(h, h.live[a].pr, a) && h.live[a].size <= BlockSize(h.refs[h.live[a].pr].kind)
  }

  ghost predicate RestLive(h: Pools)
    requires TableOk(h)
  {
    forall p, a :: p in h.all && BlockOf(h, p, a) ==> a in h.live && h.live[a].pr == p
  }

  /** Block a of page p is not on the page's free list. */
  ghost predicate BlockOf(h: Pools, p: int, a: int)
    requires TableOk(h) && p in h.all
  {
    IsBlock(h.refs[p].page, h.refs[p].kind, a) && a !in h.free[p]
  }

  /** The live blocks are exactly the whole-page grants and the blocks on no free list. */
  ghost predicate LiveOk(h: Pools)
    requires TableOk(h)
  {
    WholePagesLive(h) && BlocksLive(h) && RestLive(h)
  }

  ghost predicate Consistent(h: Pools) {
    TableOk(h) && PagesOk(h) && GrantsOk(h) && LiveOk(h)
  }

  /** Every listed page, except possibly p, has a block in a client's hands. */
  ghost predicate BusyBut(h: Pools, p: int)
    requires TableOk(h)
  {
    forall q :: q in h.all && q != p ==> |h.free[q]| < PerPage(h.refs[q].kind)
  }

  /** The number of bytes behind a live pointer. */
  ghost function Capacity(h: Pools, a: int): int
    requires TableOk(h) && LiveOk(h) && a in h.live
  {
    if h.live[a].pr == NULL then PAGE_SIZE * h.kpages[a].npages
    else BlockSize(h.refs[h.live[a].pr].kind)
  }

  // ---------------------------------------------------------------- geometry

  lemma MulMonotone(s: nat, x: int, y: int)
    requires x <= y
    ensures s * x <= s * y
  {
    assert s * y == s * x + s * (y - x);
  }

  lemma MultiplesApart(d: int, e: int, s: int)
    requires 0 < s && d % s == 0 && e % s == 0 && d < e
    ensures d + s <= e
  {
    var x, y := d / s, e / s;
    assert d == s * x && e == s * y;
    if y <= x {
      MulMonotone(s, y, x);
    } else {
      MulMonotone(s, x + 1, y);
    }
  }

  lemma BlocksApart(page: int, kind: int, a: int, b: int)
    requires 0 <= kind < NSIZES && IsBlock(page, kind, a) && IsBlock(page, kind, b) && a < b
    ensures a + BlockSize(kind) <= b
  {
    MultiplesApart(a - page, b - page, BlockSize(kind));
  }

  lemma BlockInPage(page: int, kind: int, a: int)
    requires 0 <= kind < NSIZES && IsBlock(page, kind, a)
    ensures a + BlockSize(kind) <= page + PAGE_SIZE
  {
    MultiplesApart(a - page, PAGE_SIZE, BlockSize(kind));
  }

  /** Whatever the block size, blocks start on a 16-byte boundary. */
  lemma BlockAligned(page: int, kind: int, a: int)
    requires 0 <= kind < NSIZES && page % PAGE_SIZE == 0 && IsBlock(page, kind, a)
    ensures a % 16 == 0
  {
    var m := Quotient(a - page, BlockSize(kind));
    var k := BlockSize(kind) / 16;
    assert BlockSize(kind) == 16 * k;
    Sixteens(page, m, k);
  }

  lemma Sixteens(page: int, m: int, k: int)
    requires page % PAGE_SIZE == 0
    ensures (page + m * (16 * k)) % 16 == 0
  {
    var x, y := page / PAGE_SIZE * 256, m * k;
    assert page == 16 * x;
    assert m * (16 * k) == 16 * y;
    SixteenTimes(x + y, page + m * (16 * k));
  }

  lemma SixteenTimes(n: int, a: int)
    requires a == 16 * n
    ensures a % 16 == 0
  {
  }

  /** A block lies inside the run of pages its pageref was granted. */
  ghost function Run(h: Pools, a: int): int
    requires TableOk(h) && LiveOk(h) && a in h.live
  {
    if h.live[a].pr == NULL then a else h.refs[h.live[a].pr].page
  }

  lemma InsideRun(h: Pools, a: int)
    requires Consistent(h) && a in h.live
    ensures Run(h, a) in h.kpages && h.kpages[Run(h, a)].pr == h.live[a].pr
    ensures Run(h, a) <= a && a + Capacity(h, a) <= End(h, Run(h, a))
    ensures h.live[a].size <= Capacity(h, a)
  {
    if h.live[a].pr != NULL {
      BlockInPage(h.refs[h.live[a].pr].page, h.refs[h.live[a].pr].kind, a);
    }
  }

  /** Live blocks never overlap each other. */
  lemma LiveBlocksDisjoint(h: Pools, a: int, b: int)
    requires Consistent(h) && a in h.live && b in h.live && a < b
    ensures a + Capacity(h, a) <= b
  {
    InsideRun(h, a);
    InsideRun(h, b);
    if Run(h, a) == Run(h, b) {
      assert h.live[a].pr == h.live[b].pr;
      if h.live[a].pr != NULL {
        BlocksApart(h.refs[h.live[a].pr].page, h.refs[h.live[a].pr].kind, a, b);
      }
    }
  }

  /** No live block overlaps a block on a free list. */
  lemma FreeBlocksNotLive(h: Pools, p: int, f: int, a: int)
    requires Consistent(h) && p in h.all && f in h.free[p] && a in h.live
    ensures f + BlockSize(h.refs[p].kind) <= a || a + Capacity(h, a) <= f
  {
    var r := h.refs[p];
    assert PageOk(r, h.free[p], h.mem);
    assert IsBlock(r.page, r.kind, f);
    BlockInPage(r.page, r.kind, f);
    InsideRun(h, a);
    var page := r.page;
    assert page in h.kpages && h.kpages[page].pr == p;
    if Run(h, a) == page {
      assert h.live[a].pr == p && a !in h.free[p];
      if a < f {
        BlocksApart(r.page, r.kind, a, f);
      } else {
        BlocksApart(r.page, r.kind, f, a);
      }
    } else if Run(h, a) < page {
      assert End(h, Run(h, a)) <= page;
    } else {
      assert End(h, page) <= Run(h, a);
    }
  }

  // ---------------------------------------------------------------- the steps, on values

  /** Two memories agree except possibly in [lo, hi). */
  ghost predicate SameOutside(m: Memory, m': Memory, lo: int, hi: int) {
    forall a :: a < lo || hi <= a ==> Word(m', a) == Word(m, a)
  }

  /** subpage_kmalloc's doalloc: pop the head of page p's free list. */
  ghost function TakeBlock(h: Pools, p: int, size: nat): Pools
    requires TableOk(h) && p in h.all && h.free[p] != []
  {
    var fl, r := h.free[p], h.refs[p];
    h.(refs := h.refs[p := r.(freeOff := if |fl| > 1 then fl[1] - r.page else INVALID_OFFSET,
                              nfree := r.nfree - 1)],
       free := h.free[p := fl[1..]],
       live := h.live[fl[0] := Block(size, p)])
  }

  lemma TakeBlockKeeps(h: Pools, p: int, size: nat)
    requires Consistent(h) && p in h.all && h.free[p] != []
    requires size <= BlockSize(h.refs[p].kind)
    ensures h.free[p][0] !in h.live
    ensures Consistent(TakeBlock(h, p, size))
  {
    assert PageOk(h.refs[p], h.free[p], h.mem);
    FreeHeadNotLive(h, p);
    var h' := TakeBlock(h, p, size);
    assert TableOk(h');
    assert PagesOk(h') by {
      PoppedPageOk(h.refs[p], h.free[p], h.mem);
    }
    SamePages(h, h');
    TakeBlockLive(h, p, size);
  }

  lemma FreeHeadNotLive(h: Pools, p: int)
    requires Consistent(h) && p in h.all && h.free[p] != []
    ensures h.free[p][0] !in h.live
  {
    var a := h.free[p][0];
    if a in h.live {
      FreeBlocksNotLive(h, p, a, a);
      InsideRun(h, a);
      assert false;
    }
  }

  lemma PoppedPageOk(r: PageRef, fl: seq<int>, mem: Memory)
    requires PageOk(r, fl, mem) && fl != []
    ensures PageOk(r.(freeOff := if |fl| > 1 then fl[1] - r.page else INVALID_OFFSET, nfree := r.nfree - 1),
                   fl[1..], mem)
  {
    var fl' := fl[1..];
    forall k | 0 <= k < |fl'|
      ensures Word(mem, fl'[k]) == EntryAt(fl', k + 1)
    {
      assert Word(mem, fl[k + 1]) == EntryAt(fl, k + 2);
    }
  }

  /** The grants look only at where the listed pages are. */
  lemma SamePages(h: Pools, h': Pools)
    requires TableOk(h) && GrantsOk(h) && TableOk(h')
    requires h'.all == h.all && h'.kpages == h.kpages
    requires forall p :: p in h.all ==> h'.refs[p].page == h.refs[p].page
    ensures GrantsOk(h')
  {
    forall p | p in h.all
      ensures h'.refs[p].page == h.refs[p].page
    {
    }
  }

  lemma TakeBlockLive(h: Pools, p: int, size: nat)
    requires Consistent(h) && p in h.all && h.free[p] != [] && h.free[p][0] !in h.live
    requires size <= BlockSize(h.refs[p].kind)
    ensures TableOk(TakeBlock(h, p, size)) && LiveOk(TakeBlock(h, p, size))
  {
    var fl, r, h' := h.free[p], h.refs[p], TakeBlock(h, p, size);
    var a := fl[0];
    assert PageOk(r, fl, h.mem);
    assert IsBlock(r.page, r.kind, a) && a !in fl[1..];
    forall x
      ensures x in fl <==> x == a || x in fl[1..]
    {
      assert fl == [a] + fl[1..];
    }
    forall q, x | q in h'.all && BlockOf(h', q, x)
      ensures x in h'.live && h'.live[x].pr == q
    {
      assert x != a ==> BlockOf(h, q, x);
      if x == a {
        OnOnePage(h, p, q, x);
      }
    }
  }

  /** A byte address lies on at most one listed page. */
  lemma OnOnePage(h: Pools, p: int, q: int, x: int)
    requires TableOk(h) && GrantsOk(h) && p in h.all && q in h.all
    requires h.refs[p].page <= x < h.refs[p].page + PAGE_SIZE
    requires h.refs[q].page <= x < h.refs[q].page + PAGE_SIZE
    ensures p == q
  {
    var a, b := h.refs[p].page, h.refs[q].page;
    assert a in h.kpages && b in h.kpages;
  }

  /** The free list subpage_kmalloc lays out in a fresh page: highest block first. */
  ghost function FreshList(page: int, kind: int): (fl: seq<int>)
    requires 0 <= kind < NSIZES
    ensures |fl| == PerPage(kind)
  {
    seq(PerPage(kind), k => page + (PerPage(kind) - 1 - k) * BlockSize(kind))
  }

  lemma FreshListBlocks(page: int, kind: int)
    requires 0 <= kind < NSIZES
    ensures NoDup(FreshList(page, kind))
    ensures forall k :: 0 <= k < PerPage(kind) ==> IsBlock(page, kind, FreshList(page, kind)[k])
    ensures forall a :: IsBlock(page, kind, a) ==> a in FreshList(page, kind)
  {
    var n, s, fl := PerPage(kind), BlockSize(kind), FreshList(page, kind);
    forall k | 0 <= k < n
      ensures IsBlock(page, kind, fl[k])
    {
      FreshListAt(page, kind, k);
    }
    forall i, j | 0 <= i < j < n
      ensures fl[i] != fl[j]
    {
      FreshListFalls(page, kind, i, j);
    }
    forall a | IsBlock(page, kind, a)
      ensures a in fl
    {
      FreshListHas(page, kind, a);
    }
  }

  lemma FreshListAt(page: int, kind: int, k: int)
    requires 0 <= kind < NSIZES && 0 <= k < PerPage(kind)
    ensures IsBlock(page, kind, FreshList(page, kind)[k])
  {
    var n, s := PerPage(kind), BlockSize(kind);
    assert n * s == PAGE_SIZE;
    MulMonotone(s, n - 1 - k, n - 1);
    ModMul(n - 1 - k, s);
  }

  lemma FreshListFalls(page: int, kind: int, i: int, j: int)
    requires 0 <= kind < NSIZES && 0 <= i < j < PerPage(kind)
    ensures FreshList(page, kind)[i] > FreshList(page, kind)[j]
  {
    var n, s := PerPage(kind), BlockSize(kind);
    MulMonotone(s, n - j, n - 1 - i);
    assert (n - j) * s == (n - 1 - j) * s + s;
  }

  lemma FreshListHas(page: int, kind: int, a: int)
    requires 0 <= kind < NSIZES && IsBlock(page, kind, a)
    ensures a in FreshList(page, kind)
  {
    var n, s, fl := PerPage(kind), BlockSize(kind), FreshList(page, kind);
    var m := Quotient(a - page, s);
    MulLess(m, n, s);
    assert fl[n - 1 - m] == a;
  }

  lemma MulLess(m: nat, n: nat, s: int)
    requires 0 < s && m * s < n * s
    ensures m < n
  {
    if n <= m {
      MulMonotone(s, n, m);
    }
  }

  lemma Quotient(x: nat, s: int) returns (m: nat)
    requires 0 < s && x % s == 0
    ensures x == m * s
  {
    m := x / s;
  }

  lemma ModMul(x: nat, s: int)
    requires 0 < s
    ensures (x * s) % s == 0
  {
    var q, r := x * s / s, x * s % s;
    assert r == s * (x - q);
    if x > q {
      MulMonotone(s, 1, x - q);
    } else {
      MulMonotone(s, x - q, 0);
    }
  }

  /** A free list as long as the page has blocks holds every block of the page, and conversely. */
  lemma FullListHoldsAll(page: int, kind: int, fl: seq<int>)
    requires 0 <= kind < NSIZES && NoDup(fl) && forall k :: 0 <= k < |fl| ==> IsBlock(page, kind, fl[k])
    ensures |fl| <= PerPage(kind)
    ensures |fl| == PerPage(kind) <==> forall a :: IsBlock(page, kind, a) ==> a in fl
  {
    FreshListBlocks(page, kind);
    var all := FreshList(page, kind);
    SetSize(fl);
    SetSize(all);
    var A, B := set x | x in fl, set x | x in all;
    assert A <= B by {
      forall x | x in fl
        ensures x in all
      {
        var k :| 0 <= k < |fl| && fl[k] == x;
        assert IsBlock(page, kind, fl[k]);
      }
    }
    SubsetSize(A, B);
    if |fl| == PerPage(kind) {
      forall a | IsBlock(page, kind, a)
        ensures a in fl
      {
        assert a in B;
      }
    }
    if forall a :: IsBlock(page, kind, a) ==> a in fl {
      forall x | x in B
        ensures x in A
      {
        var k :| 0 <= k < |all| && all[k] == x;
        assert IsBlock(page, kind, all[k]);
      }
      assert A == B;
    }
  }

  lemma {:induction false} SetSize(s: seq<int>)
    requires NoDup(s)
    ensures |set x | x in s| == |s|
  {
    if s != [] {
      var t := s[..|s| - 1];
      SetSize(t);
      assert (set x | x in s) == (set x | x in t) + {s[|s| - 1]};
    }
  }

  /** An answer alloc_kpages can give when asked for n pages: aligned, not page 0, and nobody else's. */
  ghost predicate Offered(h: Pools, page: int, n: nat) {
    && 0 < page && page % PAGE_SIZE == 0 && page + PAGE_SIZE * n <= ADDRESS_SPACE
    && forall k :: k in h.kpages ==> End(h, k) <= page || (page < k && page + PAGE_SIZE * n <= k)
  }

  /** An answer with memory behind it. */
  ghost predicate Grantable(h: Pools, page: int, n: nat) {
    1 <= n && Offered(h, page, n)
  }

  /** Writes that miss every free-list entry leave the free lists intact. */
  lemma FreeListsUntouched(h: Pools, mem': Memory, lo: int, hi: int)
    requires TableOk(h) && PagesOk(h) && SameOutside(h.mem, mem', lo, hi)
    requires forall p, f :: p in h.all && f in h.free[p] ==> f < lo || hi <= f
    ensures PagesOk(h.(mem := mem'))
  {
    forall p | p in h.all
      ensures PageOk(h.refs[p], h.free[p], mem')
    {
      assert PageOk(h.refs[p], h.free[p], h.mem);
      var fl := h.free[p];
      forall k | 0 <= k < |fl|
        ensures Word(mem', fl[k]) == EntryAt(fl, k + 1)
      {
        assert fl[k] in h.free[p];
      }
    }
  }

  /** A free-list entry lies on its page. */
  lemma EntryOnPage(h: Pools, p: int, f: int)
    requires TableOk(h) && PagesOk(h) && p in h.all && f in h.free[p]
    ensures IsBlock(h.refs[p].page, h.refs[p].kind, f)
  {
    assert PageOk(h.refs[p], h.free[p], h.mem);
    var k :| 0 <= k < |h.free[p]| && h.free[p][k] == f;
  }

  /** subpage_kmalloc's fresh page: page `page`, cut into blocks of type `kind`, under pageref p. */
  ghost function AddPage(h: Pools, p: int, page: int, kind: int, mem': Memory): Pools
    requires |h.refs| == |h.free| == NPAGEREFS && 0 <= p < NPAGEREFS && 0 <= kind < NSIZES
  {
    h.(refs := h.refs[p := PageRef(page, kind, (PerPage(kind) - 1) * BlockSize(kind), PerPage(kind))],
       all := [p] + h.all,
       free := h.free[p := FreshList(page, kind)],
       mem := mem',
       kpages := h.kpages[page := Grant(1, p)])
  }

  lemma AddPageKeeps(h: Pools, p: int, page: int, kind: int, mem': Memory)
    requires Consistent(h) && 0 <= p < NPAGEREFS && p !in h.all && 0 <= kind < NSIZES
    requires Grantable(h, page, 1)
    requires SameOutside(h.mem, mem', page, page + PAGE_SIZE) && Linked(mem', FreshList(page, kind))
    ensures Consistent(AddPage(h, p, page, kind, mem'))
  {
    var h' := AddPage(h, p, page, kind, mem');
    assert TableOk(h');
    FreshListBlocks(page, kind);
    AddPagePages(h, p, page, kind, mem');
    AddPageGrants(h, p, page, kind, mem');
    AddPageLive(h, p, page, kind, mem');
  }

  lemma AddPagePages(h: Pools, p: int, page: int, kind: int, mem': Memory)
    requires Consistent(h) && 0 <= p < NPAGEREFS && p !in h.all && 0 <= kind < NSIZES
    requires Grantable(h, page, 1)
    requires SameOutside(h.mem, mem', page, page + PAGE_SIZE) && Linked(mem', FreshList(page, kind))
    ensures PagesOk(AddPage(h, p, page, kind, mem'))
  {
    FreshListBlocks(page, kind);
    forall q, f | q in h.all && f in h.free[q]
      ensures f < page || page + PAGE_SIZE <= f
    {
      EntryOnPage(h, q, f);
      assert h.refs[q].page in h.kpages;
      assert End(h, h.refs[q].page) == h.refs[q].page + PAGE_SIZE;
    }
    FreeListsUntouched(h, mem', page, page + PAGE_SIZE);
    var h' := AddPage(h, p, page, kind, mem');
    forall q | q in h'.all
      ensures PageOk(h'.refs[q], h'.free[q], mem')
    {
      if q != p {
        assert PageOk(h.refs[q], h.free[q], h.(mem := mem').mem);
      }
    }
  }

  lemma AddPageGrants(h: Pools, p: int, page: int, kind: int, mem': Memory)
    requires Consistent(h) && 0 <= p < NPAGEREFS && p !in h.all && 0 <= kind < NSIZES
    requires Grantable(h, page, 1)
    ensures TableOk(AddPage(h, p, page, kind, mem')) && GrantsOk(AddPage(h, p, page, kind, mem'))
  {
    assert page !in h.kpages;
  }

  lemma AddPageLive(h: Pools, p: int, page: int, kind: int, mem': Memory)
    requires Consistent(h) && 0 <= p < NPAGEREFS && p !in h.all && 0 <= kind < NSIZES
    requires Grantable(h, page, 1)
    ensures TableOk(AddPage(h, p, page, kind, mem')) && LiveOk(AddPage(h, p, page, kind, mem'))
  {
    FreshListBlocks(page, kind);
    var h' := AddPage(h, p, page, kind, mem');
    assert page !in h.kpages;
    assert WholePagesLive(h');
    forall a | a in h.live && h.live[a].pr != NULL
      ensures BlockOf(h', h.live[a].pr, a)
    {
      assert BlockOf(h, h.live[a].pr, a);
    }
    forall q, a | q in h'.all && BlockOf(h', q, a)
      ensures a in h.live && h.live[a].pr == q
    {
      assert q != p ==> BlockOf(h, q, a);
    }
  }

  /** subpage_kfree: push the block at ptr on the free list of its page. */
  ghost function PutBlock(h: Pools, ptr: int, mem': Memory): Pools
    requires TableOk(h) && LiveOk(h) && ptr in h.live && h.live[ptr].pr != NULL
  {
    var p := h.live[ptr].pr;
    var r := h.refs[p];
    h.(refs := h.refs[p := r.(freeOff := ptr - r.page, nfree := r.nfree + 1)],
       free := h.free[p := [ptr] + h.free[p]],
       mem := mem',
       live := h.live - {ptr})
  }

  lemma PutBlockKeeps(h: Pools, ptr: int, mem': Memory)
    requires Consistent(h) && ptr in h.live && h.live[ptr].pr != NULL
    requires SameOutside(h.mem, mem', ptr, ptr + Capacity(h, ptr))
    requires Word(mem', ptr) == EntryAt(h.free[h.live[ptr].pr], 0)
    ensures Consistent(PutBlock(h, ptr, mem'))
  {
    var p := h.live[ptr].pr;
    var h' := PutBlock(h, ptr, mem');
    assert TableOk(h');
    forall q, f | q in h.all && f in h.free[q]
      ensures f < ptr || ptr + Capacity(h, ptr) <= f
    {
      FreeBlocksNotLive(h, q, f, ptr);
    }
    FreeListsUntouched(h, mem', ptr, ptr + Capacity(h, ptr));
    assert PageOk(h.refs[p], h.free[p], h.(mem := mem').mem);
    PushedPageOk(h.refs[p], h.free[p], mem', ptr);
    assert PagesOk(h') by {
      forall q | q in h'.all
        ensures PageOk(h'.refs[q], h'.free[q], mem')
      {
        assert PageOk(h.refs[q], h.free[q], h.(mem := mem').mem);
      }
    }
    SamePages(h, h');
    PutBlockLive(h, ptr, mem');
  }

  lemma PushedPageOk(r: PageRef, fl: seq<int>, mem: Memory, a: int)
    requires PageOk(r, fl, mem) && a !in fl && IsBlock(r.page, r.kind, a)
    requires Word(mem, a) == EntryAt(fl, 0)
    ensures PageOk(r.(freeOff := a - r.page, nfree := r.nfree + 1), [a] + fl, mem)
  {
    var fl' := [a] + fl;
    forall k | 0 <= k < |fl'|
      ensures Word(mem, fl'[k]) == EntryAt(fl', k + 1)
      ensures IsBlock(r.page, r.kind, fl'[k])
    {
      if k > 0 {
        assert fl'[k] == fl[k - 1];
      }
    }
  }

  lemma PutBlockLive(h: Pools, ptr: int, mem': Memory)
    requires Consistent(h) && ptr in h.live && h.live[ptr].pr != NULL
    ensures TableOk(PutBlock(h, ptr, mem')) && LiveOk(PutBlock(h, ptr, mem'))
  {
    var p := h.live[ptr].pr;
    var h' := PutBlock(h, ptr, mem');
    forall a | a in h'.live && h'.live[a].pr != NULL
      ensures h'.live[a].pr in h.all && BlockOf(h', h'.live[a].pr, a)
    {
      assert a in h.live && a != ptr && BlockOf(h, h.live[a].pr, a);
    }
    forall q, a | q in h.all && BlockOf(h', q, a)
      ensures a in h'.live && h'.live[a].pr == q
    {
      assert BlockOf(h, q, a);
    }
    forall k | k in h.kpages && h.kpages[k].pr == NULL
      ensures k != ptr
    {
      assert k in h.live && h.live[k].pr == NULL;
    }
  }

  /** subpage_kfree's last act on a page that has become entirely free: it leaves the lists. */
  ghost function DropPage(h: Pools, p: int, all': seq<int>): Pools
    requires TableOk(h) && p in h.all
  {
    h.(all := all', kpages := h.kpages - {h.refs[p].page})
  }

  lemma DropPageKeeps(h: Pools, p: int, all': seq<int>)
    requires Consistent(h) && p in h.all && |h.free[p]| == PerPage(h.refs[p].kind)
    requires forall q :: q in all' <==> q in h.all && q != p
    ensures Consistent(DropPage(h, p, all'))
  {
    var h' := DropPage(h, p, all');
    assert TableOk(h') && PagesOk(h');
    EmptyPageNotLive(h, p);
    DropPageGrants(h, p, all');
    forall q, a | q in h'.all && BlockOf(h', q, a)
      ensures a in h.live && h.live[a].pr == q
    {
      assert BlockOf(h, q, a);
    }
    forall a | a in h.live && h.live[a].pr != NULL
      ensures h.live[a].pr in h'.all && BlockOf(h', h.live[a].pr, a)
    {
      assert BlockOf(h, h.live[a].pr, a);
    }
    assert WholePagesLive(h');
  }

  lemma EmptyPageNotLive(h: Pools, p: int)
    requires Consistent(h) && p in h.all && |h.free[p]| == PerPage(h.refs[p].kind)
    ensures forall a :: a in h.live ==> h.live[a].pr != p
  {
    assert PageOk(h.refs[p], h.free[p], h.mem);
    FullListHoldsAll(h.refs[p].page, h.refs[p].kind, h.free[p]);
    forall a | a in h.live
      ensures h.live[a].pr != p
    {
      assert h.live[a].pr == p ==> BlockOf(h, p, a);
    }
  }

  lemma DropPageGrants(h: Pools, p: int, all': seq<int>)
    requires Consistent(h) && p in h.all
    requires forall q :: q in all' <==> q in h.all && q != p
    ensures TableOk(DropPage(h, p, all')) && GrantsOk(DropPage(h, p, all'))
  {
  }

  /** kmalloc of whole pages, and kfree of them. */
  ghost function TakePages(h: Pools, page: int, n: nat, size: nat): Pools {
    h.(kpages := h.kpages[page := Grant(n, NULL)], live := h.live[page := Block(size, NULL)])
  }

  /** A new run of pages fits in exactly if it is nobody else's, is not empty and is as large as the block it is to be. */
  lemma TakePagesExactly(h: Pools, page: int, n: nat, size: nat)
    requires Consistent(h) && page !in h.kpages
    ensures Consistent(TakePages(h, page, n, size)) <==> Grantable(h, page, n) && size <= PAGE_SIZE * n
  {
    var h' := TakePages(h, page, n, size);
    if Consistent(h') {
      assert page in h'.live && h'.live[page].pr == NULL;
      forall k | k in h.kpages
        ensures End(h, k) <= page || (page < k && page + PAGE_SIZE * n <= k)
      {
        assert k in h'.kpages && End(h', k) == End(h, k);
        assert page in h'.kpages && End(h', page) == page + PAGE_SIZE * n;
      }
    } else if Grantable(h, page, n) && size <= PAGE_SIZE * n {
      TakePagesKeeps(h, page, n, size);
      assert false;
    }
  }

  lemma TakePagesKeeps(h: Pools, page: int, n: nat, size: nat)
    requires Consistent(h) && Grantable(h, page, n) && size <= PAGE_SIZE * n
    ensures page !in h.live
    ensures Consistent(TakePages(h, page, n, size))
  {
    GrantedNotLive(h, page, n);
    var h' := TakePages(h, page, n, size);
    assert TableOk(h') && PagesOk(h');
    TakePagesGrants(h, page, n, size);
    forall a | a in h'.live && h'.live[a].pr != NULL
      ensures h'.live[a].pr in h.all && BlockOf(h', h'.live[a].pr, a)
    {
      assert BlockOf(h, h.live[a].pr, a);
    }
    forall p, a | p in h.all && BlockOf(h', p, a)
      ensures a in h'.live && h'.live[a].pr == p
    {
      assert BlockOf(h, p, a);
    }
    assert WholePagesLive(h');
  }

  lemma GrantedNotLive(h: Pools, page: int, n: nat)
    requires Consistent(h) && Grantable(h, page, n)
    ensures page !in h.live && page !in h.kpages
  {
    if page in h.live {
      InsideRun(h, page);
      assert false;
    }
  }

  lemma TakePagesGrants(h: Pools, page: int, n: nat, size: nat)
    requires Consistent(h) && Grantable(h, page, n) && page !in h.kpages
    ensures TableOk(TakePages(h, page, n, size)) && GrantsOk(TakePages(h, page, n, size))
  {
    var h' := TakePages(h, page, n, size);
    forall k | k in h'.kpages
      ensures k != page ==> k in h.kpages && End(h', k) == End(h, k)
    {
    }
  }

  ghost function ReturnPages(h: Pools, ptr: int): Pools {
    h.(kpages := h.kpages - {ptr}, live := h.live - {ptr})
  }

  lemma ReturnPagesKeeps(h: Pools, ptr: int)
    requires Consistent(h) && ptr in h.live && h.live[ptr].pr == NULL
    ensures Consistent(ReturnPages(h, ptr))
  {
    var h' := ReturnPages(h, ptr);
    assert TableOk(h') && PagesOk(h') && GrantsOk(h');
    forall p, a | p in h.all && BlockOf(h', p, a)
      ensures a in h'.live && h'.live[a].pr == p
    {
      assert BlockOf(h, p, a);
    }
    forall a | a in h'.live && h'.live[a].pr != NULL
      ensures h'.live[a].pr in h.all && BlockOf(h', h'.live[a].pr, a)
    {
      assert BlockOf(h, h.live[a].pr, a);
    }
  }

  lemma OnlyMemoryChanged(h: Pools, mem': Memory)
    requires TableOk(h) && GrantsOk(h) && LiveOk(h)
    ensures TableOk(h.(mem := mem')) && GrantsOk(h.(mem := mem')) && LiveOk(h.(mem := mem'))
  {
    var h' := h.(mem := mem');
    forall p, a | p in h.all
      ensures BlockOf(h', p, a) == BlockOf(h, p, a)
    {
    }
  }

  /** A client may scribble over its own block without hurting the allocator. */
  lemma ClientWriteKeeps(h: Pools, ptr: int, mem': Memory)
    requires Consistent(h) && ptr in h.live
    requires SameOutside(h.mem, mem', ptr, ptr + Capacity(h, ptr))
    ensures Consistent(h.(mem := mem'))
  {
    forall q, f | q in h.all && f in h.free[q]
      ensures f < ptr || ptr + Capacity(h, ptr) <= f
    {
      FreeBlocksNotLive(h, q, f, ptr);
    }
    FreeListsUntouched(h, mem', ptr, ptr + Capacity(h, ptr));
    OnlyMemoryChanged(h, mem');
  }
}
