/**
 The allocator of os161-1.11/kern/lib/kheap.c as it runs: a table of 256 pagerefs, a bitmap
 of the ones in use, one list of all pages and one list per block size, and free lists in
 raw memory.  Each method is one call made with interrupts off.
 */
module KHeapAllocator {
  import opened IndexList
  import opened KHeap

  ghost predicate Threaded(next: seq<int>, bases: seq<int>, same: seq<seq<int>>)
    requires |bases| == |same| == NSIZES
  {
    forall t :: 0 <= t < NSIZES ==> IsList(next, bases[t], same[t])
  }

  ghost predicate Partition(same: seq<seq<int>>, all: seq<int>, refs: seq<PageRef>)
    requires |same| == NSIZES && |refs| == NPAGEREFS
    requires forall p :: p in all ==> 0 <= p < NPAGEREFS
  {
    forall t, p :: 0 <= t < NSIZES ==> (p in same[t] <==> p in all && refs[p].kind == t)
  }

  /** The per-size lists partition the listed pages by block type. */
  ghost predicate SizeListsOk(next: seq<int>, bases: seq<int>, same: seq<seq<int>>, all: seq<int>, refs: seq<PageRef>)
    requires |bases| == |same| == NSIZES && |refs| == NPAGEREFS
    requires forall p :: p in all ==> 0 <= p < NPAGEREFS
  {
    Threaded(next, bases, same) && Partition(same, all, refs)
  }

  lemma SizeListsPush(next: seq<int>, bases: seq<int>, same: seq<seq<int>>, all: seq<int>, refs: seq<PageRef>,
                      p: int, r: PageRef)
    requires |bases| == |same| == NSIZES && |next| == |refs| == NPAGEREFS && 0 <= r.kind < NSIZES
    requires forall q :: q in all ==> 0 <= q < NPAGEREFS
    requires SizeListsOk(next, bases, same, all, refs) && 0 <= p < NPAGEREFS && p !in all
    ensures SizeListsOk(next[p := bases[r.kind]], bases[r.kind := p], same[r.kind := [p] + same[r.kind]],
                        [p] + all, refs[p := r])
  {
    var next', bases', same' := next[p := bases[r.kind]], bases[r.kind := p], same[r.kind := [p] + same[r.kind]];
    forall t | 0 <= t < NSIZES
      ensures IsList(next', bases'[t], same'[t])
    {
      assert p !in same[t];
      if t == r.kind {
        PushFront(next, bases[t], same[t], p);
      } else {
        Untouched(next, bases[t], same[t], p, bases[r.kind]);
      }
    }
  }

  /** What remove_lists leaves of the per-size lists when page p of type t goes. */
  lemma SizeListsUnlink(next: seq<int>, bases: seq<int>, same: seq<seq<int>>, all: seq<int>, refs: seq<PageRef>,
                        t: int, i: nat, next': seq<int>, bases': seq<int>, all': seq<int>)
    requires |bases| == |same| == NSIZES && |next| == |refs| == NPAGEREFS
    requires forall q :: q in all ==> 0 <= q < NPAGEREFS
    requires SizeListsOk(next, bases, same, all, refs) && 0 <= t < NSIZES && i < |same[t]|
    requires forall q :: q in all' <==> q in all && q != same[t][i]
    requires if i == 0 then next' == next && bases' == bases[t := next[same[t][0]]]
             else next' == next[same[t][i - 1] := next[same[t][i]]] && bases' == bases
    ensures SizeListsOk(next', bases', same[t := Without(same[t], i)], all', refs)
  {
    var p, same' := same[t][i], same[t := Without(same[t], i)];
    assert p in same[t];
    assert IsList(next, bases[t], same[t]);
    WithoutMembers(same[t], i);
    PartitionUnlink(same, all, refs, t, p, Without(same[t], i), all');
    forall u | 0 <= u < NSIZES
      ensures IsList(next', bases'[u], same'[u])
    {
      if u == t {
        Unlink(next, bases[t], same[t], i);
      } else {
        OtherSizeList(next, bases, same, all, refs, t, i, u);
      }
    }
  }

  lemma PartitionUnlink(same: seq<seq<int>>, all: seq<int>, refs: seq<PageRef>, t: int, p: int,
                        rest: seq<int>, all': seq<int>)
    requires |same| == NSIZES && |refs| == NPAGEREFS
    requires forall q :: q in all ==> 0 <= q < NPAGEREFS
    requires Partition(same, all, refs) && 0 <= t < NSIZES && p in same[t]
    requires forall q :: q in rest <==> q in same[t] && q != p
    requires forall q :: q in all' <==> q in all && q != p
    ensures Partition(same[t := rest], all', refs)
  {
    var same' := same[t := rest];
    forall u, q | 0 <= u < NSIZES
      ensures q in same'[u] <==> q in all' && refs[q].kind == u
    {
      assert q in same[u] <==> q in all && refs[q].kind == u;
    }
  }

  lemma OtherSizeList(next: seq<int>, bases: seq<int>, same: seq<seq<int>>, all: seq<int>, refs: seq<PageRef>,
                      t: int, i: nat, u: int)
    requires |bases| == |same| == NSIZES && |next| == |refs| == NPAGEREFS
    requires forall q :: q in all ==> 0 <= q < NPAGEREFS
    requires SizeListsOk(next, bases, same, all, refs) && 0 <= t < NSIZES && i < |same[t]|
    requires 0 <= u < NSIZES && u != t
    ensures IsList(next, bases[u], same[u])
    ensures i > 0 ==> 0 <= same[t][i - 1] < NPAGEREFS && 0 <= same[t][i] < NPAGEREFS
                      && IsList(next[same[t][i - 1] := next[same[t][i]]], bases[u], same[u])
  {
    assert same[t][i] in same[t];
    if i > 0 {
      var prev := same[t][i - 1];
      assert prev in same[t] && refs[prev].kind == t;
      Untouched(next, bases[u], same[u], prev, next[same[t][i]]);
    }
  }

  /** Every block live before and after keeps its bytes and its size. */
  ghost predicate BytesKept(h: Pools, h': Pools)
    requires Consistent(h) && Consistent(h')
  {
    && (forall a :: a in h.live && a in h'.live ==> Capacity(h', a) == Capacity(h, a))
    && (forall a, w :: a in h.live && a in h'.live && a <= w < a + Capacity(h, a) ==>
          Word(h'.mem, w) == Word(h.mem, w))
  }

  /** A fresh grant of pages touches no live block. */
  lemma GrantMissesLive(h: Pools, page: int, n: nat, a: int)
    requires Consistent(h) && Grantable(h, page, n) && a in h.live
    ensures a + Capacity(h, a) <= page || page + PAGE_SIZE * n <= a
  {
    InsideRun(h, a);
  }

  /** The number of pages kmalloc asks for, computed in 32 bits. */
  function PagesFor(sz: nat): nat {
    (sz + PAGE_SIZE - 1) % ADDRESS_SPACE / PAGE_SIZE
  }

  /** The argument of the call of alloc_kpages that a request may lead to. */
  function PagesAsked(sz: nat): nat {
    if sz >= LARGEST_SUBPAGE_SIZE then PagesFor(sz) else 1
  }

  /** Rounding up covers the request exactly when the addition does not wrap; if it wraps, no pages are asked for. */
  lemma PagesForCovers(sz: nat)
    requires sz < ADDRESS_SPACE
    ensures sz <= PAGE_SIZE * PagesFor(sz) <==> sz <= ADDRESS_SPACE - PAGE_SIZE
    ensures sz > ADDRESS_SPACE - PAGE_SIZE ==> PagesFor(sz) == 0
  {
  }

  /** For an answer that is nobody else's, kmalloc's large blocks are sound exactly up to the size where the rounding wraps. */
  lemma LargeBlockExactly(h: Pools, page: int, sz: nat)
    requires Consistent(h) && LARGEST_SUBPAGE_SIZE <= sz < ADDRESS_SPACE && Offered(h, page, PagesFor(sz))
    ensures Consistent(TakePages(h, page, PagesFor(sz), sz)) <==> sz <= ADDRESS_SPACE - PAGE_SIZE
  {
    PagesForCovers(sz);
    assert page !in h.kpages;
    TakePagesExactly(h, page, PagesFor(sz), sz);
  }

  /**
   kmalloc of the largest size: the block it returns has no memory, the same page can be handed
   out again, and every block then cut from the page lies inside the block already returned.
   */
  lemma LargestRequest(h: Pools, page: int, kind: int, a: int)
    requires Consistent(h) && Offered(h, page, 1) && 0 <= kind < NSIZES && IsBlock(page, kind, a)
    ensures var sz := 0xffff_ffff; var h' := TakePages(h, page, PagesFor(sz), sz);
            && !Consistent(h') && h'.live[page] == Block(sz, NULL) && End(h', page) == page
            && Offered(h', page, 1) && page <= a && a + BlockSize(kind) <= page + h'.live[page].size
  {
    var sz := 0xffff_ffff;
    PagesForCovers(sz);
    OfferedAgain(h, page, sz);
    assert !Consistent(TakePages(h, page, 0, sz)) by {
      LargeBlockExactly(h, page, sz);
    }
    BlockInPage(page, kind, a);
  }

  /** A run of no pages is in nobody's way. */
  lemma OfferedAgain(h: Pools, page: int, sz: nat)
    requires Offered(h, page, 1)
    ensures Offered(h, page, 0) && Offered(TakePages(h, page, 0, sz), page, 1)
  {
    var h' := TakePages(h, page, 0, sz);
    assert forall k :: k in h'.kpages && k != page ==> k in h.kpages && End(h', k) == End(h, k);
  }

  /** t is the smallest block size that fits. */
  ghost predicate Fits(t: int, sz: nat) {
    0 <= t < NSIZES && sz <= BlockSize(t) && forall u :: 0 <= u < t ==> BlockSize(u) < sz
  }

  lemma FitsUnique(t: int, u: int, sz: nat)
    requires Fits(t, sz) && Fits(u, sz)
    ensures t == u
  {
  }

  /** No listed page of this block size has a free block. */
  ghost predicate Exhausted(h: Pools, t: int)
    requires TableOk(h)
  {
    forall q :: q in h.all && h.refs[q].kind == t ==> h.refs[q].nfree == 0
  }

  ghost predicate AllInUse(h: Pools) {
    forall q :: 0 <= q < NPAGEREFS ==> q in h.all
  }

  /**
   Where a small block comes from: the head of the free list of a listed page of the smallest size
   that fits, if any has a free block; else a new page of that size; and 0 only if there is neither.
   */
  ghost predicate Issued(h: Pools, h': Pools, sz: nat, page: int, ptr: int, took: bool)
    requires TableOk(h) && TableOk(h')
  {
    forall t :: Fits(t, sz) ==>
      && (ptr == 0 <==> Exhausted(h, t) && (page == 0 || AllInUse(h)))
      && (took <==> Exhausted(h, t) && ptr != 0)
      && (ptr != 0 ==> ptr in h'.live && OnPage(h, h', h'.live[ptr].pr, t, page, ptr, took))
  }

  ghost predicate OnPage(h: Pools, h': Pools, p: int, t: int, page: int, ptr: int, took: bool)
    requires TableOk(h) && TableOk(h')
  {
    && p in h'.all && h'.refs[p].kind == t
    && if took then p !in h.all && h'.refs[p].page == page
       else p in h.all && h.refs[p].kind == t && h.free[p] != [] && ptr == h.free[p][0]
  }

  lemma IssuedBy(h: Pools, h': Pools, kind: int, sz: nat, page: int, ptr: int, took: bool)
    requires TableOk(h) && TableOk(h') && Fits(kind, sz)
    requires ptr == 0 <==> Exhausted(h, kind) && (page == 0 || AllInUse(h))
    requires took <==> Exhausted(h, kind) && ptr != 0
    requires ptr != 0 ==> ptr in h'.live && OnPage(h, h', h'.live[ptr].pr, kind, page, ptr, took)
    ensures Issued(h, h', sz, page, ptr, took)
  {
    forall t | Fits(t, sz)
      ensures t == kind
    {
      FitsUnique(t, kind, sz);
    }
  }

  function Blk(page: int, s: int, j: int): int {
    page + j * s
  }

  /** Writing entry i of a page being carved keeps the entries before it, and stays in the page. */
  lemma CarveStep(m: Memory, page: int, s: int, i: int, n: int)
    requires 0 < s && 1 <= i < n && n * s == PAGE_SIZE && Word(m, Blk(page, s, 0)) == 0
    requires forall j :: 1 <= j < i ==> Word(m, Blk(page, s, j)) == Blk(page, s, j - 1)
    ensures var m' := m[Blk(page, s, i) := Blk(page, s, i - 1)];
            && Word(m', Blk(page, s, 0)) == 0 && (forall j :: 1 <= j <= i ==> Word(m', Blk(page, s, j)) == Blk(page, s, j - 1))
            && SameOutside(m, m', page, page + PAGE_SIZE)
  {
    BlkOrder(page, s, i, n);
    BlkOrder(page, s, 0, i);
    forall j | 1 <= j < i
      ensures Blk(page, s, j) != Blk(page, s, i)
    {
      BlkOrder(page, s, j, i);
    }
  }

  lemma Carved(m: Memory, page: int, kind: int)
    requires 0 <= kind < NSIZES && Word(m, Blk(page, BlockSize(kind), 0)) == 0
    requires forall j :: 1 <= j < PerPage(kind) ==> Word(m, Blk(page, BlockSize(kind), j)) == Blk(page, BlockSize(kind), j - 1)
    ensures Linked(m, FreshList(page, kind))
  {
    var n, s, fl := PerPage(kind), BlockSize(kind), FreshList(page, kind);
    forall k | 0 <= k < n
      ensures Word(m, fl[k]) == EntryAt(fl, k + 1)
    {
      assert fl[k] == Blk(page, s, n - 1 - k) && (k + 1 < n ==> fl[k + 1] == Blk(page, s, n - 1 - k - 1));
    }
  }

  lemma BlkOrder(page: int, s: int, i: int, j: int)
    requires 0 < s && i < j
    ensures Blk(page, s, i) + s <= Blk(page, s, j)
  {
    MulMonotone(s, i + 1, j);
  }

  class Heap {
    const refs: array<PageRef>
    const nextSame: array<int>
    const nextAll: array<int>
    /** One flag per pageref; the source keeps 32 of them in each word of pagerefs_inuse. */
    const inuse: array<bool>
    const sizebases: array<int>
    var allbase: int
    var mem: Memory

    ghost var all: seq<int>
    ghost var same: seq<seq<int>>
    ghost var free: seq<seq<int>>
    ghost var kpages: map<int, Grant>
    ghost var live: map<int, Block>

    ghost function View(): Pools
      reads this, refs
    {
      Pools(refs[..], all, free, mem, kpages, live)
    }

    ghost predicate Shape()
      reads this
    {
      && refs.Length == nextSame.Length == nextAll.Length == NPAGEREFS
      && inuse.Length == NPAGEREFS && sizebases.Length == |same| == NSIZES
      && nextSame != nextAll && nextSame != sizebases && nextAll != sizebases
    }

    /** The invariant, except that page p may be entirely free. */
    ghost predicate ValidBut(p: int)
      reads this, refs, nextSame, nextAll, inuse, sizebases
    {
      && Shape()
      && Consistent(View()) && BusyBut(View(), p)
      && IsList(nextAll[..], allbase, all)
      && SizeListsOk(nextSame[..], sizebases[..], same, all, refs[..])
      && forall q :: 0 <= q < NPAGEREFS ==> (inuse[q] <==> q in all)
    }

    /** What holds whenever interrupts are on. */
    ghost predicate Valid()
      reads this, refs, nextSame, nextAll, inuse, sizebases
    {
      ValidBut(NULL)
    }

    constructor ()
      ensures Valid() && fresh(refs) && fresh(nextSame) && fresh(nextAll) && fresh(inuse) && fresh(sizebases)
      ensures live == map[] && kpages == map[]
    {
      refs := new PageRef[NPAGEREFS](_ => PageRef(0, 0, 0, 0));
      nextSame := new int[NPAGEREFS](_ => NULL);
      nextAll := new int[NPAGEREFS](_ => NULL);
      inuse := new bool[NPAGEREFS](_ => false);
      sizebases := new int[NSIZES](_ => NULL);
      allbase := NULL;
      mem := map[];
      all, same := [], seq(NSIZES, _ => []);
      free := seq(NPAGEREFS, _ => []);
      kpages, live := map[], map[];
    }

    /** blocktype: the smallest block size that fits. */
    method FindBlockType(sz: nat) returns (t: int)
      requires sz <= LARGEST_SUBPAGE_SIZE
      ensures Fits(t, sz)
    {
      assert BlockSize(NSIZES - 1) == LARGEST_SUBPAGE_SIZE;
      t := 0;
      while t < NSIZES
        invariant 0 <= t <= NSIZES
        invariant forall u :: 0 <= u < t ==> BlockSize(u) < sz
      {
        if sz <= BlockSize(t) {
          return;
        }
        t := t + 1;
      }
      assert false;
    }

    /** allocpageref: claim the lowest clear flag, word by word, or report that there is none. */
    method AllocPageRef() returns (p: int)
      requires Shape()
      modifies inuse
      ensures p == NULL ==> inuse[..] == old(inuse[..]) && false !in inuse[..]
      ensures p != NULL ==>
                && 0 <= p < NPAGEREFS && false !in old(inuse[..p]) && !old(inuse[p])
                && inuse[..] == old(inuse[..])[p := true]
    {
      var i := 0;
      while i < NPAGEREFS / 32
        invariant 0 <= i <= NPAGEREFS / 32 && inuse[..] == old(inuse[..])
        invariant forall q :: 0 <= q < 32 * i ==> inuse[q]
      {
        if exists q :: 32 * i <= q < 32 * i + 32 && !inuse[q] {
          var j := 0;
          while j < 32
            invariant 0 <= j <= 32 && inuse[..] == old(inuse[..])
            invariant forall q :: 0 <= q < 32 * i + j ==> inuse[q]
          {
            if !inuse[32 * i + j] {
              inuse[32 * i + j] := true;
              p := 32 * i + j;
              return;
            }
            j := j + 1;
          }
          assert false;
        }
        i := i + 1;
      }
      p := NULL;
    }

    /** freepageref: clear the flag of a pageref that is in use. */
    method FreePageRef(p: int)
      requires Shape() && 0 <= p < NPAGEREFS && inuse[p]
      modifies inuse
      ensures inuse[..] == old(inuse[..])[p := false]
    {
      inuse[p] := false;
    }

    /** subpage_kmalloc's search: the first page of this block size with a free block. */
    method FindRoom(kind: int) returns (p: int)
      requires Valid() && 0 <= kind < NSIZES
      ensures p == NULL <==> Exhausted(View(), kind)
      ensures p != NULL ==> p in same[kind] && free[p] != []
    {
      p := sizebases[kind];
      ghost var k := 0;
      assert IsList(nextSame[..], sizebases[kind], same[kind]);
      while p != NULL
        invariant 0 <= k <= |same[kind]| && p == At(same[kind], k)
        invariant forall j :: 0 <= j < k ==> free[same[kind][j]] == []
        decreases |same[kind]| - k
      {
        assert p in same[kind] && refs[p].kind == kind;
        assert PageOk(View().refs[p], free[p], mem);
        if refs[p].nfree > 0 {
          return;
        }
        p := nextSame[p];
        k := k + 1;
      }
      forall q | q in all && refs[q].kind == kind
        ensures refs[q].nfree == 0
      {
        assert q in same[kind] && PageOk(View().refs[q], free[q], mem);
      }
    }

    /** subpage_kmalloc's doalloc, at a page with a free block. */
    method PopBlock(p: int, ghost size: nat) returns (ptr: int)
      requires Shape() && Consistent(View()) && p in all && free[p] != []
      modifies this`free, this`live, refs
      ensures ptr == old(free[p][0])
      ensures View() == TakeBlock(old(View()), p, size)
    {
      var r := refs[p];
      assert PageOk(View().refs[p], free[p], mem);
      assert IsBlock(r.page, r.kind, free[p][0]) && (|free[p]| > 1 ==> IsBlock(r.page, r.kind, free[p][1]));
      assert Word(mem, free[p][0]) == EntryAt(free[p], 1);
      assert r.page in kpages;
      ptr := r.page + r.freeOff;
      var fl := Word(mem, ptr);
      if fl != 0 {
        assert r.nfree - 1 > 0 && 0 <= fl - r.page < PAGE_SIZE;
        refs[p] := r.(freeOff := fl - r.page, nfree := r.nfree - 1);
      } else {
        assert r.nfree - 1 == 0;
        refs[p] := r.(freeOff := INVALID_OFFSET, nfree := r.nfree - 1);
      }
      free, live := free[p := free[p][1..]], live[ptr := Block(size, p)];
    }

    /** subpage_kmalloc's loop over a fresh page: thread all its blocks on one free list. */
    method CarvePage(page: int, kind: int)
      requires 0 <= kind < NSIZES && 0 < page
      modifies this`mem
      ensures SameOutside(old(mem), mem, page, page + PAGE_SIZE)
      ensures Linked(mem, FreshList(page, kind))
    {
      var n, s := PerPage(kind), BlockSize(kind);
      assert n * s == PAGE_SIZE;
      mem := mem[page := 0];
      var i := 1;
      while i < n
        invariant 1 <= i <= n
        invariant SameOutside(old(mem), mem, page, page + PAGE_SIZE)
        invariant Word(mem, Blk(page, s, 0)) == 0
        invariant forall j :: 1 <= j < i ==> Word(mem, Blk(page, s, j)) == Blk(page, s, j - 1)
      {
        CarveStep(mem, page, s, i, n);
        mem := mem[Blk(page, s, i) := Blk(page, s, i - 1)];
        i := i + 1;
      }
      Carved(mem, page, kind);
    }

    /** subpage_kmalloc's bookkeeping for a new page: fill in pageref p, put it on both lists. */
    method LinkPage(p: int, r: PageRef)
      requires Shape() && IsList(nextAll[..], allbase, all) && 0 <= p < NPAGEREFS && p !in all
      requires 0 <= r.kind < NSIZES && forall q :: q in all ==> 0 <= q < NPAGEREFS
      requires SizeListsOk(nextSame[..], sizebases[..], same, all, refs[..])
      modifies this`allbase, this`all, this`same, refs, nextSame, nextAll, sizebases
      ensures Shape() && all == [p] + old(all) && refs[..] == old(refs[..])[p := r]
      ensures IsList(nextAll[..], allbase, all)
      ensures SizeListsOk(nextSame[..], sizebases[..], same, all, refs[..])
    {
      PushFront(nextAll[..], allbase, all, p);
      SizeListsPush(nextSame[..], sizebases[..], same, all, refs[..], p, r);
      refs[p] := r;
      nextSame[p] := sizebases[r.kind];
      sizebases[r.kind] := p;
      nextAll[p] := allbase;
      allbase := p;
      all, same := [p] + all, same[r.kind := [p] + same[r.kind]];
      assert refs[..] == old(refs[..])[p := r];
      assert nextAll[..] == old(nextAll[..])[p := old(allbase)];
      assert nextSame[..] == old(nextSame[..])[p := old(sizebases[r.kind])];
      assert sizebases[..] == old(sizebases[..])[r.kind := p];
    }

    /** subpage_kmalloc's new page: cut it up, account for it under pageref p and list it. */
    method FreshPage(p: int, page: int, kind: int)
      requires Shape() && TableOk(View()) && IsList(nextAll[..], allbase, all)
      requires SizeListsOk(nextSame[..], sizebases[..], same, all, refs[..])
      requires 0 <= p < NPAGEREFS && p !in all && 0 <= kind < NSIZES && 0 < page
      modifies this`mem, this`allbase, this`all, this`same, this`free, this`kpages, refs, nextSame, nextAll, sizebases
      ensures Shape() && View() == AddPage(old(View()), p, page, kind, mem)
      ensures SameOutside(old(mem), mem, page, page + PAGE_SIZE) && Linked(mem, FreshList(page, kind))
      ensures IsList(nextAll[..], allbase, all)
      ensures forall q :: q in all ==> 0 <= q < NPAGEREFS
      ensures SizeListsOk(nextSame[..], sizebases[..], same, all, refs[..])
    {
      CarvePage(page, kind);
      var n := PerPage(kind);
      LinkPage(p, PageRef(page, kind, (n - 1) * BlockSize(kind), n));
      free, kpages := free[p := FreshList(page, kind)], kpages[page := Grant(1, p)];
    }

    method TakeFrom(p: int, sz: nat) returns (ptr: int)
      requires ValidBut(p) && p in all && free[p] != [] && sz <= BlockSize(refs[p].kind)
      modifies this`free, this`live, refs
      ensures Valid() && BytesKept(old(View()), View())
      ensures ptr > 0 && ptr !in old(live) && live == old(live)[ptr := Block(sz, p)]
      ensures all == old(all) && ptr == old(free[p][0])
      ensures refs[p].kind == old(refs[p].kind) && refs[p].page == old(refs[p].page)
    {
      AfterTake(View(), p, sz);
      ptr := PopBlock(p, sz);
      assert refs[..] == old(refs[..])[p := refs[p]];
    }

    /** Claim pageref p for a new page and list the page, still entirely free. */
    method OpenPage(p: int, page: int, kind: int)
      requires Shape() && Consistent(View()) && BusyBut(View(), NULL) && IsList(nextAll[..], allbase, all)
      requires SizeListsOk(nextSame[..], sizebases[..], same, all, refs[..])
      requires 0 <= p < NPAGEREFS && p !in all && 0 <= kind < NSIZES && Grantable(View(), page, 1)
      requires forall q :: 0 <= q < NPAGEREFS ==> (inuse[q] <==> q == p || q in all)
      modifies this`mem, this`allbase, this`all, this`same, this`free, this`kpages, refs, nextSame, nextAll, sizebases
      ensures ValidBut(p) && p in all && refs[p].kind == kind && refs[p].page == page && free[p] != []
      ensures live == old(live) && kpages == old(kpages)[page := Grant(1, p)] && BytesKept(old(View()), View())
    {
      ghost var h := View();
      FreshPage(p, page, kind);
      AfterOpen(h, p, page, kind, mem);
    }

    /** A pageref and a new page for blocks of one kind; if there is no page, the pageref is given back. */
    method OpenNew(kind: int, page: int) returns (p: int)
      requires Valid() && 0 <= kind < NSIZES && (page == 0 || Grantable(View(), page, 1))
      modifies this, refs, nextSame, nextAll, inuse, sizebases
      ensures p == NULL <==> page == 0 || AllInUse(old(View()))
      ensures p == NULL ==> Valid() && View() == old(View())
      ensures p != NULL ==>
                && ValidBut(p) && p in all && p !in old(all) && refs[p].kind == kind && refs[p].page == page && free[p] != []
                && live == old(live) && kpages == old(kpages)[page := Grant(1, p)] && BytesKept(old(View()), View())
    {
      p := AllocPageRef();
      if p == NULL {
        return;
      }
      if page == 0 {
        FreePageRef(p);
        assert inuse[..] == old(inuse[..]);
        return NULL;
      }
      OpenPage(p, page, kind);
    }

    /**
     subpage_kmalloc: take a block from a page that has one, else from a new page, if both a
     pageref and a page are to be had.  `page` is what alloc_kpages(1) would answer.
     */
    method SubpageKmalloc(sz: nat, page: int) returns (ptr: int, took: bool)
      requires Valid() && sz <= LARGEST_SUBPAGE_SIZE && (page == 0 || Grantable(View(), page, 1))
      modifies this, refs, nextSame, nextAll, inuse, sizebases
      ensures Valid() && BytesKept(old(View()), View())
      ensures Issued(old(View()), View(), sz, page, ptr, took)
      ensures ptr == 0 ==> View() == old(View())
      ensures ptr != 0 ==>
                && ptr !in old(live) && ptr in live && live == old(live)[ptr := Block(sz, live[ptr].pr)]
                && live[ptr].pr != NULL
      ensures took ==> page != 0 && ptr != 0 && kpages == old(kpages)[page := Grant(1, live[ptr].pr)]
      ensures !took ==> kpages == old(kpages)
    {
      var kind := FindBlockType(sz);
      var p := FindRoom(kind);
      took := p == NULL;
      if took {
        p := OpenNew(kind, page);
        if p == NULL {
          IssuedBy(old(View()), View(), kind, sz, page, 0, false);
          return 0, false;
        }
      }
      assert refs[p].kind == kind;
      ghost var h := View();
      ptr := TakeFrom(p, sz);
      KeptTwice(old(View()), h, View());
      IssuedBy(old(View()), View(), kind, sz, page, ptr, took);
    }

    /** subpage_kfree's search: the listed page that contains ptr, if any. */
    method FindOwner(ptr: int) returns (p: int)
      requires Valid()
      ensures p == NULL ==> forall q :: q in all ==> !(refs[q].page <= ptr < refs[q].page + PAGE_SIZE)
      ensures p != NULL ==> p in all && refs[p].page <= ptr < refs[p].page + PAGE_SIZE
    {
      p := allbase;
      ghost var k := 0;
      while p != NULL
        invariant 0 <= k <= |all| && p == At(all, k)
        invariant forall j :: 0 <= j < k ==> !(refs[all[j]].page <= ptr < refs[all[j]].page + PAGE_SIZE)
        decreases |all| - k
      {
        assert p in all;
        if refs[p].page <= ptr < refs[p].page + PAGE_SIZE {
          return;
        }
        p := nextAll[p];
        k := k + 1;
      }
    }

    /** fill_deadbeef */
    method FillDeadbeef(ptr: int, len: nat)
      requires len % 4 == 0
      modifies this`mem
      ensures SameOutside(old(mem), mem, ptr, ptr + len)
      ensures forall i :: 0 <= i < len / 4 ==> Word(mem, ptr + 4 * i) == DEADBEEF
    {
      var i := 0;
      while i < len / 4
        invariant 0 <= i <= len / 4
        invariant SameOutside(old(mem), mem, ptr, ptr + len)
        invariant forall j :: 0 <= j < i ==> Word(mem, ptr + 4 * j) == DEADBEEF
      {
        mem := mem[ptr + 4 * i := DEADBEEF];
        i := i + 1;
      }
    }

    /** subpage_kfree's core: poison the block and push it on the free list of page p. */
    method PushBlock(ptr: int, p: int)
      requires Shape() && Consistent(View()) && ptr in live && live[ptr].pr == p && p != NULL
      modifies this`free, this`live, this`mem, refs
      ensures View() == PutBlock(old(View()), ptr, mem)
      ensures SameOutside(old(mem), mem, ptr, ptr + BlockSize(old(refs[p].kind)))
      ensures Word(mem, ptr) == EntryAt(old(free[p]), 0)
      ensures forall i :: 1 <= i < BlockSize(old(refs[p].kind)) / 4 ==> Word(mem, ptr + 4 * i) == DEADBEEF
    {
      var r := refs[p];
      assert PageOk(View().refs[p], free[p], mem);
      assert free[p] != [] ==> IsBlock(r.page, r.kind, free[p][0]);
      FillDeadbeef(ptr, BlockSize(r.kind));
      if r.freeOff == INVALID_OFFSET {
        mem := mem[ptr := 0];
      } else {
        mem := mem[ptr := r.page + r.freeOff];
      }
      refs[p] := r.(freeOff := ptr - r.page, nfree := r.nfree + 1);
      free, live := free[p := [ptr] + free[p]], live - {ptr};
    }

    /** remove_lists, first loop: unlink page p from the list of its block size. */
    method UnlinkSame(p: int, ghost all': seq<int>)
      requires Shape() && 0 <= p < NPAGEREFS && p in all && 0 <= refs[p].kind < NSIZES
      requires forall q :: q in all ==> 0 <= q < NPAGEREFS
      requires forall q :: q in all' <==> q in all && q != p
      requires SizeListsOk(nextSame[..], sizebases[..], same, all, refs[..])
      modifies this`same, nextSame, sizebases
      ensures Shape() && SizeListsOk(nextSame[..], sizebases[..], same, all', refs[..])
    {
      var kind := refs[p].kind;
      var prev, cur := NULL, sizebases[kind];
      ghost var s, i := same[kind], 0;
      assert IsList(nextSame[..], sizebases[kind], s) && p in s;
      while cur != NULL && cur != p
        invariant 0 <= i < |s| && cur == At(s, i) && prev == (if i == 0 then NULL else s[i - 1])
        invariant p !in s[..i]
        decreases |s| - i
      {
        prev, cur := cur, nextSame[cur];
        i := i + 1;
      }
      if prev == NULL {
        sizebases[kind] := nextSame[p];
      } else {
        nextSame[prev] := nextSame[p];
      }
      same := same[kind := Without(s, i)];
      SizeListsUnlink(old(nextSame[..]), old(sizebases[..]), old(same), all, refs[..], kind, i,
                      nextSame[..], sizebases[..], all');
    }

    /** remove_lists, second loop: unlink page p from the list of all pages. */
    method UnlinkAll(p: int, ghost at: nat)
      requires Shape() && IsList(nextAll[..], allbase, all) && at < |all| && all[at] == p
      modifies this`allbase, this`all, nextAll
      ensures IsList(nextAll[..], allbase, all) && all == Without(old(all), at)
    {
      var prev, cur := NULL, allbase;
      ghost var i := 0;
      while cur != NULL && cur != p
        invariant 0 <= i < |all| && cur == At(all, i) && prev == (if i == 0 then NULL else all[i - 1])
        invariant p !in all[..i]
        decreases |all| - i
      {
        prev, cur := cur, nextAll[cur];
        i := i + 1;
      }
      Unlink(nextAll[..], allbase, all, i);
      if prev == NULL {
        allbase := nextAll[p];
      } else {
        nextAll[prev] := nextAll[p];
        assert nextAll[..] == old(nextAll[..])[prev := old(nextAll[p])];
      }
      all := Without(all, i);
    }

    /** subpage_kfree's end: a page with no live block leaves the lists and goes back. */
    method ClosePage(p: int)
      requires ValidBut(p) && p in all && |free[p]| == PerPage(refs[p].kind)
      modifies this`allbase, this`all, this`same, this`kpages, nextSame, nextAll, inuse, sizebases
      ensures Valid() && kpages == old(kpages) - {refs[p].page}
      ensures BytesKept(old(View()), View())
    {
      ghost var h := View();
      ghost var i :| 0 <= i < |all| && all[i] == p;
      WithoutMembers(all, i);
      UnlinkSame(p, Without(all, i));
      UnlinkAll(p, i);
      kpages := kpages - {refs[p].page};
      FreePageRef(p);
      DropPageKeeps(h, p, all);
      assert View() == DropPage(h, p, all);
    }

    /** The block goes back to its page; the page may now be entirely free. */
    method GiveBack(ptr: int, p: int)
      requires Valid() && ptr in live && live[ptr].pr == p && p != NULL
      modifies this`free, this`live, this`mem, refs
      ensures ValidBut(p) && BytesKept(old(View()), View())
      ensures live == old(live) - {ptr} && refs[p].page == old(refs[p].page) && refs[p].kind == old(refs[p].kind)
      ensures p in all && refs[p].nfree == |free[p]| <= PerPage(refs[p].kind)
      ensures |free[p]| == PerPage(refs[p].kind) <==> forall a :: a in live ==> live[a].pr != p
      ensures forall i :: 1 <= i < BlockSize(refs[p].kind) / 4 ==> Word(mem, ptr + 4 * i) == DEADBEEF
    {
      ghost var h := View();
      PushBlock(ptr, p);
      AfterPut(h, ptr, mem);
      assert refs[..] == old(refs[..])[p := refs[p]];
    }

    /** What page p, now without the block at ptr, leaves of the page grants. */
    ghost predicate PageGoesIfIdle(p: int, kpages0: map<int, Grant>)
      reads this, refs
      requires 0 <= p < refs.Length
    {
      kpages == if exists a :: a in live && live[a].pr == p then kpages0 else kpages0 - {refs[p].page}
    }

    /** A freed block is poisoned, but for the link in its first word. */
    ghost predicate Poisoned(ptr: int, size: nat)
      reads this
    {
      forall i :: 1 <= i < size / 4 ==> Word(mem, ptr + 4 * i) == DEADBEEF
    }

    /** subpage_kfree once the page is found. */
    method FreeOnPage(ptr: int, p: int)
      requires Valid() && ptr in live && live[ptr].pr == p && p != NULL
      modifies this, refs, nextSame, nextAll, inuse, sizebases
      ensures Valid() && BytesKept(old(View()), View())
      ensures live == old(live) - {ptr} && PageGoesIfIdle(p, old(kpages))
      ensures forall i :: 1 <= i < old(BlockSize(refs[p].kind)) / 4 ==> Word(mem, ptr + 4 * i) == DEADBEEF
    {
      GiveBack(ptr, p);
      ghost var h := View();
      if refs[p].nfree == PerPage(refs[p].kind) {
        ClosePage(p);
        KeptTwice(old(View()), h, View());
      }
    }

    /** subpage_kfree: -1 if ptr is not on one of our pages, else 0 with the block freed. */
    method SubpageKfree(ptr: int) returns (result: int)
      requires Valid() && ptr in live
      modifies this, refs, nextSame, nextAll, inuse, sizebases
      ensures Valid() && BytesKept(old(View()), View())
      ensures result == if old(live[ptr].pr) == NULL then -1 else 0
      ensures result == -1 ==> View() == old(View())
      ensures result == 0 ==> live == old(live) - {ptr} && PageGoesIfIdle(old(live[ptr].pr), old(kpages))
      ensures result == 0 ==> Poisoned(ptr, old(Capacity(View(), ptr)))
    {
      var p := FindOwner(ptr);
      OwnerIsIssuer(View(), ptr);
      if p == NULL {
        return -1;
      }
      assert (ptr - refs[p].page) % BlockSize(refs[p].kind) == 0;
      FreeOnPage(ptr, p);
      return 0;
    }

    /** kmalloc's large requests, which go to alloc_kpages: whatever it answers is the block. */
    method LargeKmalloc(sz: nat, page: int) returns (ptr: int)
      requires Valid() && LARGEST_SUBPAGE_SIZE <= sz < ADDRESS_SPACE && page !in kpages
      modifies this`kpages, this`live
      ensures ptr == page && View() == if page == 0 then old(View()) else TakePages(old(View()), page, PagesFor(sz), sz)
      ensures Valid() <==> page == 0 || Grantable(old(View()), page, PagesFor(sz))
      ensures Valid() ==> BytesKept(old(View()), View()) && (page != 0 ==> page !in old(live))
    {
      if page == 0 {
        return 0;
      }
      ghost var h := View();
      PagesForCovers(sz);
      TakePagesExactly(h, page, PagesFor(sz), sz);
      kpages, live := kpages[page := Grant(PagesFor(sz), NULL)], live[page := Block(sz, NULL)];
      assert View() == TakePages(h, page, PagesFor(sz), sz);
      if Grantable(h, page, PagesFor(sz)) {
        GrantedNotLive(h, page, PagesFor(sz));
      }
      return page;
    }

    /**
     kmalloc: `page` is what alloc_kpages would answer for the number of pages asked.  The heap
     stays sound exactly if that answer has as many pages behind it as the block needs.
     */
    method Kmalloc(sz: nat, page: int) returns (ptr: int, took: bool)
      requires Valid() && sz < ADDRESS_SPACE && page !in kpages
      requires sz < LARGEST_SUBPAGE_SIZE ==> page == 0 || Grantable(View(), page, 1)
      modifies this, refs, nextSame, nextAll, inuse, sizebases
      ensures Valid() <==> page == 0 || sz < LARGEST_SUBPAGE_SIZE || Grantable(old(View()), page, PagesFor(sz))
      ensures Valid() ==> BytesKept(old(View()), View())
      ensures sz < LARGEST_SUBPAGE_SIZE ==> Issued(old(View()), View(), sz, page, ptr, took)
      ensures ptr == 0 ==> live == old(live) && !took
      ensures ptr != 0 && Valid() ==> ptr !in old(live)
      ensures ptr != 0 ==>
                && ptr in live && live == old(live)[ptr := Block(sz, live[ptr].pr)]
                && (live[ptr].pr == NULL <==> sz >= LARGEST_SUBPAGE_SIZE)
      ensures took ==> ptr != 0 && page != 0 && kpages == old(kpages)[page := Grant(PagesAsked(sz), live[ptr].pr)]
      ensures !took ==> kpages == old(kpages)
      ensures sz >= LARGEST_SUBPAGE_SIZE ==> ptr == page && (took <==> page != 0)
    {
      if sz >= LARGEST_SUBPAGE_SIZE {
        ptr := LargeKmalloc(sz, page);
        took := page != 0;
      } else {
        ptr, took := SubpageKmalloc(sz, page);
      }
    }

    /** kfree of NULL or of a live pointer; each goes back to the allocator that issued it. */
    method Kfree(ptr: int)
      requires Valid() && (ptr == 0 || ptr in live)
      modifies this, refs, nextSame, nextAll, inuse, sizebases
      ensures Valid() && BytesKept(old(View()), View())
      ensures live == old(live) - {ptr}
      ensures ptr in old(live) && old(live[ptr].pr) == NULL ==> kpages == old(kpages) - {ptr}
      ensures ptr in old(live) && old(live[ptr].pr) != NULL ==>
                PageGoesIfIdle(old(live[ptr].pr), old(kpages)) && Poisoned(ptr, old(Capacity(View(), ptr)))
    {
      if ptr == 0 {
        NullNotLive(View());
        return;
      }
      var result := SubpageKfree(ptr);
      if result != 0 {
        ghost var h := View();
        assert ptr % PAGE_SIZE == 0;
        ReturnPagesKeeps(h, ptr);
        kpages, live := kpages - {ptr}, live - {ptr};
        assert View() == ReturnPages(h, ptr);
      }
    }

    /** A client stores a word anywhere in a block it holds. */
    method ClientStore(ptr: int, a: int, v: int)
      requires Valid() && ptr in live && ptr <= a < ptr + Capacity(View(), ptr)
      modifies this`mem
      ensures Valid() && Word(mem, a) == v && forall w :: w != a ==> Word(mem, w) == Word(old(mem), w)
    {
      ghost var h := View();
      mem := mem[a := v];
      ClientWriteKeeps(h, ptr, mem);
      assert View() == h.(mem := mem);
    }
  }

  lemma NullNotLive(h: Pools)
    requires Consistent(h)
    ensures 0 !in h.live
  {
    if 0 in h.live {
      InsideRun(h, 0);
      assert false;
    }
  }

  /** Looking ptr up by page finds the pageref its block came from, and only that one. */
  lemma OwnerIsIssuer(h: Pools, ptr: int)
    requires Consistent(h) && ptr in h.live
    ensures forall q :: q in h.all && h.refs[q].page <= ptr < h.refs[q].page + PAGE_SIZE ==> q == h.live[ptr].pr
    ensures h.live[ptr].pr != NULL ==>
              h.live[ptr].pr in h.all && h.refs[h.live[ptr].pr].page <= ptr < h.refs[h.live[ptr].pr].page + PAGE_SIZE
  {
    InsideRun(h, ptr);
    forall q | q in h.all && h.refs[q].page <= ptr < h.refs[q].page + PAGE_SIZE
      ensures q == h.live[ptr].pr
    {
      assert h.refs[q].page in h.kpages && h.kpages[h.refs[q].page].pr == q;
    }
  }

  lemma AfterPut(h: Pools, ptr: int, mem': Memory)
    requires Consistent(h) && BusyBut(h, NULL) && ptr in h.live && h.live[ptr].pr != NULL
    requires SameOutside(h.mem, mem', ptr, ptr + Capacity(h, ptr))
    requires Word(mem', ptr) == EntryAt(h.free[h.live[ptr].pr], 0)
    ensures var h' := PutBlock(h, ptr, mem'); var p := h.live[ptr].pr;
            && Consistent(h') && BusyBut(h', p) && BytesKept(h, h')
            && |h'.free[p]| <= PerPage(h.refs[p].kind)
            && (|h'.free[p]| == PerPage(h.refs[p].kind) <==> forall a :: a in h'.live ==> h'.live[a].pr != p)
  {
    PutBlockKeeps(h, ptr, mem');
    var h', p := PutBlock(h, ptr, mem'), h.live[ptr].pr;
    forall a, w | a in h'.live && a <= w < a + Capacity(h, a)
      ensures Word(mem', w) == Word(h.mem, w)
    {
      if a < ptr {
        LiveBlocksDisjoint(h, a, ptr);
      } else {
        LiveBlocksDisjoint(h, ptr, a);
      }
    }
    FullPageIff(h', p);
  }

  /** A page's free list is full exactly when no live block came from the page. */
  lemma FullPageIff(h: Pools, p: int)
    requires Consistent(h) && p in h.all
    ensures |h.free[p]| == PerPage(h.refs[p].kind) <==> forall a :: a in h.live ==> h.live[a].pr != p
  {
    if |h.free[p]| == PerPage(h.refs[p].kind) {
      EmptyPageNotLive(h, p);
    } else {
      assert PageOk(h.refs[p], h.free[p], h.mem);
      FullListHoldsAll(h.refs[p].page, h.refs[p].kind, h.free[p]);
      var a :| IsBlock(h.refs[p].page, h.refs[p].kind, a) && a !in h.free[p];
      assert BlockOf(h, p, a);
    }
  }

  lemma KeptTwice(h: Pools, h1: Pools, h2: Pools)
    requires Consistent(h) && Consistent(h1) && Consistent(h2) && BytesKept(h, h1) && BytesKept(h1, h2)
    requires h.live.Keys * h2.live.Keys <= h1.live.Keys
    ensures BytesKept(h, h2)
  {
    forall a, w | a in h.live && a in h2.live && a <= w < a + Capacity(h, a)
      ensures Word(h2.mem, w) == Word(h.mem, w)
    {
      assert Word(h1.mem, w) == Word(h.mem, w);
    }
  }

  lemma AfterOpen(h: Pools, p: int, page: int, kind: int, mem': Memory)
    requires Consistent(h) && 0 <= p < NPAGEREFS && p !in h.all && 0 <= kind < NSIZES
    requires Grantable(h, page, 1) && BusyBut(h, NULL)
    requires SameOutside(h.mem, mem', page, page + PAGE_SIZE) && Linked(mem', FreshList(page, kind))
    ensures var h' := AddPage(h, p, page, kind, mem'); Consistent(h') && BusyBut(h', p) && BytesKept(h, h')
  {
    AddPageKeeps(h, p, page, kind, mem');
    var h' := AddPage(h, p, page, kind, mem');
    forall a | a in h.live
      ensures a + Capacity(h, a) <= page || page + PAGE_SIZE <= a
      ensures Capacity(h', a) == Capacity(h, a)
    {
      GrantMissesLive(h, page, 1, a);
    }
  }

  /** Popping a block keeps the pools consistent and touches no byte of a live block. */
  lemma AfterTake(h: Pools, p: int, size: nat)
    requires Consistent(h) && p in h.all && h.free[p] != [] && size <= BlockSize(h.refs[p].kind) && BusyBut(h, p)
    ensures var h' := TakeBlock(h, p, size); Consistent(h') && BusyBut(h', NULL) && BytesKept(h, h')
    ensures h.free[p][0] > 0 && h.free[p][0] !in h.live
  {
    TakeBlockKeeps(h, p, size);
    assert PageOk(h.refs[p], h.free[p], h.mem);
    FullListHoldsAll(h.refs[p].page, h.refs[p].kind, h.free[p]);
    assert h.refs[p].page in h.kpages;
    EntryOnPage(h, p, h.free[p][0]);
  }
}
