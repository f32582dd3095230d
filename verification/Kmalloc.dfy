/**
 The subpage allocator's data structures and its critical sections, as code over them: page descriptors in a fixed
 array with two chains through it, a bitmap of descriptors in use, and free lists threaded through the pages.

 Each method is what runs under one hold of kmalloc_spinlock. It is proved to perform a transition of HeapSpec.
 */
module Kmalloc {
  import opened Common
  import opened HeapSpec
  import opened HeapProof
  import opened HeapRuns

  const INVALID_OFFSET: nat := 0xffff
  const DEADBEEF: nat := 0xdeadbeef
  const INUSE_WORDS: nat := 8
  const NULL: int := -1

  /** struct pageref; links are descriptor numbers, -1 for null. */
  datatype Ref = Ref(nextSame: int, nextAll: int, pab: nat, freelistOffset: nat, nfree: nat)

  /** MKPAB, PR_PAGEADDR and PR_BLOCKTYPE: page address and block type share a word. */
  function MkPab(addr: nat, blk: nat): nat { addr / PAGE_SIZE * PAGE_SIZE + blk % PAGE_SIZE }
  function PageAddr(pab: nat): nat { pab / PAGE_SIZE * PAGE_SIZE }
  function BlkType(pab: nat): nat { pab % PAGE_SIZE }

  lemma PabFields(pn: nat, blk: nat)
    requires blk < NSIZES
    ensures MkPab(pn * PAGE_SIZE, blk) == pn * PAGE_SIZE + blk
    ensures PageAddr(pn * PAGE_SIZE + blk) == pn * PAGE_SIZE && BlkType(pn * PAGE_SIZE + blk) == blk
  {
  }

  datatype Chain = All | Same

  function Link(r: Ref, c: Chain): int {
    match c case All => r.nextAll case Same => r.nextSame
  }

  /** What a link to the i-th page of s holds; past the end, NULL. */
  function From(s: seq<PageRef>, i: nat): int {
    if i < |s| then s[i] else NULL
  }

  predicate LinkedAt(prs: seq<Ref>, c: Chain, s: seq<PageRef>, i: nat)
    requires i < |s|
  {
    s[i] < |prs| && Link(prs[s[i]], c) == From(s, i + 1)
  }

  /** The chain that starts at head visits exactly s. */
  ghost predicate Chained(prs: seq<Ref>, c: Chain, head: int, s: seq<PageRef>) {
    && head == From(s, 0)
    && (forall i :: 0 <= i < |s| ==> s[i] < |prs|)
    && (forall i :: 0 <= i < |s| ==> LinkedAt(prs, c, s, i))
  }

  /** What the first word of the k-th free block holds. */
  function NextFree(pg: Page, k: nat): nat
    requires pg.blk < NSIZES && k < |pg.free|
  {
    if k + 1 < |pg.free| then BlockAddr(pg, pg.free[k + 1]) else 0
  }

  /** The free list threaded through a page's memory visits exactly its free blocks, in order. */
  ghost predicate Threaded(mem: map<nat, nat>, pg: Page)
    requires pg.blk < NSIZES
  {
    forall k :: 0 <= k < |pg.free| ==>
      && BlockAddr(pg, pg.free[k]) in mem
      && mem[BlockAddr(pg, pg.free[k])] == NextFree(pg, k)
  }

  ghost predicate PageRep(r: Ref, mem: map<nat, nat>, pg: Page)
    requires pg.blk < NSIZES
  {
    && r.pab == pg.pn * PAGE_SIZE + pg.blk
    && r.nfree == |pg.free|
    && r.freelistOffset == (if pg.free == [] then INVALID_OFFSET else pg.free[0] * Size(pg.blk))
    && Threaded(mem, pg)
  }

  /** The in-use bit of descriptor p. */
  ghost predicate InUse(bits: seq<seq<bool>>, p: nat) {
    p / 32 < |bits| && p % 32 < |bits[p / 32]| && bits[p / 32][p % 32]
  }

  ghost predicate BitsRep(bits: seq<seq<bool>>, h: Heap) {
    && |bits| == INUSE_WORDS
    && (forall w :: 0 <= w < INUSE_WORDS ==> |bits[w]| == 32)
    && (forall p: nat :: p < NPAGEREFS ==> (InUse(bits, p) <==> p in h.pages))
  }

  ghost predicate ChainsRep(prs: seq<Ref>, bases: seq<int>, allbase: int, h: Heap) {
    && |prs| == NPAGEREFS && |bases| == NSIZES && |h.same| == NSIZES
    && Chained(prs, All, allbase, h.all)
    && (forall b: nat :: b < NSIZES ==> Chained(prs, Same, bases[b], h.same[b]))
  }

  ghost predicate PagesRep(prs: seq<Ref>, mem: map<nat, nat>, h: Heap) {
    forall p :: p in h.pages ==> p < |prs| && h.pages[p].blk < NSIZES && PageRep(prs[p], mem, h.pages[p])
  }

  // ----- frames -----

  lemma ChainedFrame(prs: seq<Ref>, prs': seq<Ref>, c: Chain, head: int, s: seq<PageRef>)
    requires Chained(prs, c, head, s) && |prs'| == |prs|
    requires forall p :: p in s && p < |prs| ==> Link(prs'[p], c) == Link(prs[p], c)
    ensures Chained(prs', c, head, s)
  {
    forall i | 0 <= i < |s| ensures LinkedAt(prs', c, s, i) {
      assert s[i] in s && LinkedAt(prs, c, s, i);
    }
  }

  /** Memory inside a page decides its free list; memory elsewhere does not. */
  ghost predicate SamePage(mem: map<nat, nat>, mem': map<nat, nat>, pn: nat) {
    forall a {:trigger a in mem} {:trigger a in mem'} :: pn * PAGE_SIZE <= a < (pn + 1) * PAGE_SIZE && a in mem ==>
      a in mem' && mem'[a] == mem[a]
  }

  lemma ThreadedFrame(mem: map<nat, nat>, mem': map<nat, nat>, pg: Page)
    requires PageOk(pg) && Threaded(mem, pg) && SamePage(mem, mem', pg.pn)
    ensures Threaded(mem', pg)
  {
    forall k | 0 <= k < |pg.free|
      ensures
        && BlockAddr(pg, pg.free[k]) in mem'
        && mem'[BlockAddr(pg, pg.free[k])] == NextFree(pg, k)
    {
      assert pg.free[k] in pg.free;
      SizeFacts(pg.blk);
      SmallInsidePage(pg, pg.free[k]);
      var a := BlockAddr(pg, pg.free[k]);
      assert pg.pn * PAGE_SIZE <= a < (pg.pn + 1) * PAGE_SIZE && a in mem;
      assert mem'[a] == mem[a];
    }
  }

  lemma ChainsFrame(prs: seq<Ref>, prs': seq<Ref>, bases: seq<int>, allbase: int, h: Heap, h': Heap)
    requires ChainsRep(prs, bases, allbase, h) && |prs'| == |prs| && h'.all == h.all && h'.same == h.same
    requires forall p :: 0 <= p < |prs| ==> prs'[p].nextAll == prs[p].nextAll && prs'[p].nextSame == prs[p].nextSame
    ensures ChainsRep(prs', bases, allbase, h')
  {
    hide Chained;
    ChainedFrame(prs, prs', All, allbase, h.all);
    forall b: nat | b < NSIZES ensures Chained(prs', Same, bases[b], h'.same[b]) {
      ChainedFrame(prs, prs', Same, bases[b], h.same[b]);
    }
  }

  // ----- doalloc -----

  lemma TakeThreaded(mem: map<nat, nat>, pg: Page)
    requires pg.blk < NSIZES && pg.free != [] && Threaded(mem, pg)
    ensures Threaded(mem, TakeFrom(pg))
  {
    var pg' := TakeFrom(pg);
    forall k | 0 <= k < |pg'.free|
      ensures BlockAddr(pg', pg'.free[k]) in mem && mem[BlockAddr(pg', pg'.free[k])] == NextFree(pg', k)
    {
      assert pg'.free[k] == pg.free[k + 1] && NextFree(pg', k) == NextFree(pg, k + 1);
    }
  }

  /** doalloc's new offset: where the next free block is, or none. */
  lemma NextOffset(pg: Page)
    requires PageOk(pg) && pg.free != []
    ensures var next := NextFree(pg, 0);
            && (next == 0 <==> |pg.free| == 1)
            && (next != 0 ==> next - pg.pn * PAGE_SIZE == pg.free[1] * Size(pg.blk) < PAGE_SIZE)
  {
    if |pg.free| > 1 {
      SizeFacts(pg.blk);
      assert pg.free[1] in pg.free;
      SmallInsidePage(pg, pg.free[1]);
    }
  }

  lemma FirstOffset(pg: Page)
    requires PageOk(pg) && pg.free != []
    ensures pg.free[0] * Size(pg.blk) < PAGE_SIZE
  {
    SizeFacts(pg.blk);
    assert pg.free[0] in pg.free;
    SmallInsidePage(pg, pg.free[0]);
  }

  lemma OtherPagesRep(prs: seq<Ref>, mem: map<nat, nat>, h: Heap, h': Heap, p: PageRef, r: Ref)
    requires PagesRep(prs, mem, h) && p < |prs|
    requires p in h'.pages && h'.pages[p].blk < NSIZES && PageRep(r, mem, h'.pages[p])
    requires forall q :: q in h'.pages && q != p ==> q in h.pages && h'.pages[q] == h.pages[q]
    ensures PagesRep(prs[p := r], mem, h')
  {
    hide PageRep;
  }

  /** The descriptor of a page after its first free block was taken; `next` is that block's first word. */
  function RefAfterTake(r: Ref, next: nat): Ref
    requires r.nfree > 0 && (next != 0 ==> next >= PageAddr(r.pab))
  {
    r.(nfree := r.nfree - 1, freelistOffset := if next != 0 then next - PageAddr(r.pab) else INVALID_OFFSET)
  }

  lemma TakeFrame(h: Heap, p: PageRef)
    requires p in h.pages && h.pages[p].free != []
    ensures Take(h, p).pages.Keys == h.pages.Keys && Take(h, p).pages[p] == TakeFrom(h.pages[p])
    ensures Take(h, p).all == h.all && Take(h, p).same == h.same && TakeFrom(h.pages[p]).blk == h.pages[p].blk
    ensures forall q :: q in h.pages && q != p ==> Take(h, p).pages[q] == h.pages[q]
  {
  }

  lemma BitsFrame(bits: seq<seq<bool>>, h: Heap, h': Heap)
    requires BitsRep(bits, h) && h'.pages.Keys == h.pages.Keys
    ensures BitsRep(bits, h')
  {
    forall p: nat | p < NPAGEREFS ensures InUse(bits, p) <==> p in h'.pages {
      assert p in h.pages <==> p in h.pages.Keys;
    }
  }

  lemma TakeRep(r: Ref, mem: map<nat, nat>, pg: Page)
    requires PageOk(pg) && pg.free != [] && PageRep(r, mem, pg)
    ensures r.freelistOffset < PAGE_SIZE && r.nfree > 0
    ensures PageAddr(r.pab) + r.freelistOffset == BlockAddr(pg, pg.free[0])
    ensures BlockAddr(pg, pg.free[0]) in mem
    ensures var next := mem[BlockAddr(pg, pg.free[0])];
            && (next == 0 <==> r.nfree == 1)
            && (next != 0 ==> 0 <= next - PageAddr(r.pab) < PAGE_SIZE)
            && PageRep(RefAfterTake(r, next), mem, TakeFrom(pg))
  {
    PabFields(pg.pn, pg.blk);
    FirstOffset(pg);
    NextOffset(pg);
    TakeThreaded(mem, pg);
    assert BlockAddr(pg, pg.free[0]) in mem;
    hide PageOk, Threaded;
  }

  /**
   * The outcome of the first critical section of subpage_kmalloc: the first fitting page loses its
   * first free block.
   */
  ghost predicate Searched(h: Heap, h': Heap, blk: nat, ptr: Option<nat>) {
    && blk < |h.same| && (forall p :: p in h.same[blk] ==> p in h.pages)
    && match FirstFit(h, h.same[blk])
       case None => ptr == None && h' == h
       case Some(p) =>
         h.pages[p].blk == blk < NSIZES && h' == Take(h, p) && ptr == Some(BlockAddr(h.pages[p], h.pages[p].free[0]))
  }

  /** The outcome of the second: page pn is added under the lowest free descriptor p, or leaked if there is none. */
  ghost predicate Installed(h: Heap, h': Heap, p: PageRef, pn: nat, blk: nat, ptr: nat) {
    if AllInUse(h) then ptr == 0 && h' == h.(owner := h.owner[pn := Leaked])
    else
      && IsLowestFree(h, p) && |h.same| == NSIZES && blk < NSIZES
      && var g := AddPage(h, p, pn, blk);
         && g.pages[p].free != [] && h' == Take(g, p)
         && ptr == BlockAddr(g.pages[p], g.pages[p].free[0])
  }

  /** The i-th word from ptr on holds the pattern that marks freed memory. */
  predicate IsDead(mem: map<nat, nat>, ptr: nat, i: nat) {
    ptr + 4 * i in mem && mem[ptr + 4 * i] == DEADBEEF
  }

  /** The allocator's tables, and the memory of its pages word by word; `h` is the heap they stand for. */
  class Kheap {
    const pagerefs: array<Ref>
    const inuse: array<seq<bool>>
    const sizebases: array<int>
    var allbase: int
    var mem: map<nat, nat>
    ghost var h: Heap

    ghost predicate Valid()
      reads this, pagerefs, inuse, sizebases
    {
      && HeapInv(h)
      && BitsRep(inuse[..], h)
      && ChainsRep(pagerefs[..], sizebases[..], allbase, h)
      && PagesRep(pagerefs[..], mem, h)
    }

    constructor ()
      ensures Valid() && h == Empty()
    {
      pagerefs := new Ref[NPAGEREFS](_ => Ref(NULL, NULL, 0, 0, 0));
      inuse := new seq<bool>[INUSE_WORDS](_ => seq(32, _ => false));
      sizebases := new int[NSIZES](_ => NULL);
      allbase, mem, h := NULL, map[], Empty();
    }

    /** doalloc: unlink the first free block of page p and return its address. */
    method DoAlloc(p: PageRef) returns (ptr: nat)
      requires Valid() && p in h.pages && h.pages[p].free != []
      modifies this`h, pagerefs
      ensures Valid() && h == Take(old(h), p)
      ensures h.pages[p].blk < NSIZES && ptr == BlockAddr(old(h).pages[p], old(h).pages[p].free[0])
    {
      hide ListsOk, OwnersOk, PageOk, ChainsRep, BitsRep, PageRep, Take, TakeFrom;
      ghost var prs := pagerefs[..];
      TakeKeeps(h, p);
      TakeRep(prs[p], mem, h.pages[p]);
      var r := pagerefs[p];
      assert r.freelistOffset < PAGE_SIZE;
      var prpage := PageAddr(r.pab);
      var fla := prpage + r.freelistOffset;
      ptr := fla;
      var fl := mem[fla];
      var nfree := r.nfree - 1;
      if fl != 0 {
        assert nfree > 0 && fl - prpage < PAGE_SIZE;
        pagerefs[p] := r.(nfree := nfree, freelistOffset := fl - prpage);
      } else {
        assert nfree == 0;
        pagerefs[p] := r.(nfree := nfree, freelistOffset := INVALID_OFFSET);
      }
      TakeFrame(h, p);
      BitsFrame(inuse[..], h, Take(h, p));
      h := Take(h, p);
      assert pagerefs[..] == prs[p := pagerefs[p]];
      OtherPagesRep(prs, mem, old(h), h, p, pagerefs[p]);
      ChainsFrame(prs, pagerefs[..], sizebases[..], allbase, old(h), h);
    }

    /**
     The first critical section of subpage_kmalloc: walk the size list and take a block from the first page that
     has one. With no such page nothing changes, and the caller drops the lock to get a fresh page.
     */
    method SearchSize(blk: nat) returns (ptr: Option<nat>)
      requires Valid() && blk < NSIZES
      modifies this`h, pagerefs
      ensures Valid()
      ensures Searched(old(h), h, blk, ptr)
    {
      ghost var s := h.same[blk];
      SizeListFacts(pagerefs[..], sizebases[..], allbase, mem, h, blk);
      hide HeapInv, ChainsRep, BitsRep, PagesRep, FirstFit, BlockAddr, Searched, Take;
      var pr, k := sizebases[blk], 0;
      ghost var prs := pagerefs[..];
      while pr != NULL
        invariant Valid() && h == old(h) && pagerefs[..] == prs && 0 <= k <= |s|
        invariant pr == From(s, k)
        invariant forall j :: 0 <= j < k ==> h.pages[s[j]].free == []
        decreases |s| - k
      {
        var p: nat := pr;
        assert p == s[k] && s[k] in s && LinkedAt(prs, Same, s, k);
        assert BlkType(pagerefs[p].pab) == blk;
        if pagerefs[p].nfree > 0 {
          SearchEnds(h, blk, k);
          var a := DoAlloc(p);
          return Some(a);
        }
        pr, k := pagerefs[p].nextSame, k + 1;
      }
      SearchEnds(h, blk, k);
      ptr := None;
    }

    /** allocpageref: claim the lowest descriptor that is not in use. */
    method AllocPageRef() returns (r: int)
      requires Valid()
      modifies inuse
      ensures r == NULL ==> AllInUse(h) && inuse[..] == old(inuse[..])
      ensures r != NULL ==>
                && 0 <= r < NPAGEREFS
                && IsLowestFree(h, r)
                && inuse[..] == SetBit(old(inuse[..]), r, true)
    {
      hide HeapInv, ChainsRep, PagesRep;
      ghost var bits := inuse[..];
      var i := 0;
      while i < INUSE_WORDS
        invariant 0 <= i <= INUSE_WORDS && inuse[..] == bits
        invariant forall q: nat :: q < i * 32 ==> q in h.pages
      {
        if IsFull(inuse[i]) {
          WordInUse(bits, h, i, 32);
          i := i + 1;
          continue;
        }
        var j := 0;
        while inuse[i][j]
          invariant 0 <= j < 32 && inuse[..] == bits && forall x :: 0 <= x < j ==> bits[i][x]
          decreases 32 - j
        {
          FullOrNot(inuse[i], j);
          j := j + 1;
        }
        r := i * 32 + j;
        WordInUse(bits, h, i, j);
        BitOf(i, j);
        assert !InUse(bits, r);
        inuse[i] := inuse[i][j := true];
        return;
      }
      r := NULL;
    }

    /** Thread the free list of a fresh page: block i points to block i-1, block 0 ends the list. */
    method ThreadPage(pn: nat, blk: nat)
      requires blk < NSIZES && pn > 0
      modifies this`mem
      ensures SameElsewhere(old(mem), mem, pn)
      ensures Threaded(mem, FreshPage(pn, blk))
    {
      hide Size, PerPage, BlockAddr, Cell;
      SizeFacts(blk);
      var fla := pn * PAGE_SIZE;
      ghost var pg := FreshPage(pn, blk);
      mem := mem[fla := 0];
      var i := 1;
      FirstCell(old(mem), pg);
      BlockInsidePage(pn, blk, 0);
      while i < PerPage(blk)
        invariant 1 <= i <= PerPage(blk)
        invariant SameElsewhere(old(mem), mem, pn)
        invariant forall j: nat :: j < i ==> Cell(mem, pg, j)
      {
        BlockInsidePage(pn, blk, i);
        NextCell(mem, pg, i);
        ghost var next := mem[BlockAddr(pg, i) := pg.pn * PAGE_SIZE + (i - 1) * Size(pg.blk)];
        mem := mem[fla + i * Size(blk) := fla + (i - 1) * Size(blk)];
        assert mem == next;
        i := i + 1;
      }
      CellsAreThreaded(mem, pn, blk);
    }

    /**
     The second critical section of subpage_kmalloc, run with a fresh page in hand: claim a descriptor, thread the
     page, put it at the front of both lists and take its first block. Without a descriptor the page is given up.
     */
    method InstallPage(pn: nat, blk: nat) returns (ptr: nat, ghost p: PageRef)
      requires Valid() && blk < NSIZES && pn > 0
      requires pn in h.owner ==> h.owner[pn].Held?
      modifies this, pagerefs, inuse, sizebases
      ensures Valid()
      ensures Installed(old(h), h, p, pn, blk, ptr)
    {
      hide PagesOk, ListsOk, OwnersOk, BitsRep, ChainsRep, PagesRep, Size, PerPage, SetBit, Threaded, AddPage, Take;
      var pr := AllocPageRef();
      if pr == NULL {
        p := 0;
        ghost var g := h.(owner := h.owner[pn := Leaked]);
        OwnerAway(h, pn, Leaked);
        OwnerOnly(pagerefs[..], inuse[..], sizebases[..], allbase, mem, h, g);
        h := g;
        return 0, p;
      }
      p := pr;
      AddPageShape(h, p, pn, blk);
      AddPageKeeps(h, p, pn, blk);
      ghost var prs, bits, mem0, bases := pagerefs[..], old(inuse[..]), mem, sizebases[..];
      ThreadPage(pn, blk);
      PabFields(pn, blk);
      FreshOffset(pn, blk);
      ChainsSizes(prs, bases, allbase, h);
      pagerefs[pr] := Ref(sizebases[blk], allbase, MkPab(pn * PAGE_SIZE, blk), (PerPage(blk) - 1) * Size(blk),
          PerPage(blk));
      sizebases[blk] := pr;
      allbase := pr;
      ghost var g := AddPage(h, p, pn, blk);
      assert pagerefs[..] == prs[p := pagerefs[p]] && sizebases[..] == bases[blk := p];
      AddPageChains(prs, bases, old(allbase), h, p, pn, blk, pagerefs[p]);
      AddPagePages(prs, mem0, mem, h, p, pn, blk, pagerefs[p]);
      SetBitRep(bits, h, g, p, true);
      h := g;
      ptr := DoAlloc(pr);
    }

    /** One of the two loops of remove_lists: take descriptor p off a chain. */
    method Unlink(c: Chain, blk: nat, p: PageRef, ghost s: seq<PageRef>)
      requires blk < sizebases.Length && p < pagerefs.Length && NoDup(s) && p in s
      requires Chained(pagerefs[..], c, if c.All? then allbase else sizebases[blk], s)
      modifies this`allbase, pagerefs, sizebases
      ensures Chained(pagerefs[..], c, if c.All? then allbase else sizebases[blk], Without(s, p))
      ensures forall q :: 0 <= q < pagerefs.Length ==> SameBut(c, old(pagerefs[..])[q], pagerefs[q])
      ensures forall q :: 0 <= q < pagerefs.Length && q !in s ==> pagerefs[q] == old(pagerefs[..])[q]
      ensures c.All? ==> sizebases[..] == old(sizebases[..])
      ensures c.Same? ==> allbase == old(allbase) && sizebases[..] == old(sizebases[..])[blk := sizebases[blk]]
    {
      hide Chained, Without, NoDup;
      ghost var prs := pagerefs[..];
      var prev, cur := NULL, if c.All? then allbase else sizebases[blk];
      ghost var head, k := cur, 0;
      ghost var n :| 0 <= n < |s| && s[n] == p;
      ChainStart(prs, c, head, s);
      while cur != p
        invariant 0 <= k <= n && cur == s[k] && prev == (if k == 0 then NULL else s[k - 1])
        invariant pagerefs[..] == prs && allbase == old(allbase) && sizebases[..] == old(sizebases[..])
        decreases n - k
      {
        ChainNext(prs, c, head, s, k);
        NoDupIndex(s, k, n);
        prev, cur, k := cur, Link(pagerefs[cur], c), k + 1;
      }
      NoDupIndex(s, k, n);
      ChainRemove(prs, c, head, s, k);
      WithoutAt(s, p, k);
      ChainNext(prs, c, head, s, k);
      var next := Link(pagerefs[p], c);
      if prev == NULL {
        if c.All? { allbase := next; } else { sizebases[blk] := next; }
      } else {
        pagerefs[prev] := SetLink(pagerefs[prev], c, next);
        assert pagerefs[..] == prs[prev := SetLink(prs[prev], c, next)];
      }
    }

    /** Overwrite a block with a pattern, word by word. */
    method FillDeadbeef(ptr: nat, len: nat)
      modifies this`mem
      ensures SameOutsideRange(old(mem), mem, ptr, ptr + len)
      ensures forall i: nat :: i < len / 4 ==> IsDead(mem, ptr, i)
    {
      var i := 0;
      while i < len / 4
        invariant 0 <= i <= len / 4 && SameOutsideRange(old(mem), mem, ptr, ptr + len)
        invariant forall j: nat :: j < i ==> IsDead(mem, ptr, j)
      {
        ghost var before := mem;
        mem := mem[ptr + 4 * i := DEADBEEF];
        i := i + 1;
        forall j: nat | j < i ensures IsDead(mem, ptr, j) { assert j < i - 1 ==> IsDead(before, ptr, j); }
      }
    }

    /** The part of subpage_kfree that puts a block of page p back at the front of the page's free list. */
    method PushFree(p: PageRef, ptr: nat, ghost i: nat)
      requires Valid() && p in h.pages && i in h.pages[p].used && h.pages[p].blk < NSIZES
      requires ptr == BlockAddr(h.pages[p], i)
      modifies this`h, this`mem, pagerefs
      ensures Valid() && h == Give(old(h), p, i)
    {
      hide ListsOk, OwnersOk, PageOk, ChainsRep, BitsRep, PageRep, Size, BlockAddr, GiveTo;
      ghost var prs, mem0, pg := pagerefs[..], mem, h.pages[p];
      RefFacts(prs[p], mem, pg);
      UsedOffset(h, p, i);
      var r := pagerefs[p];
      var prpage, blk := PageAddr(r.pab), BlkType(r.pab);
      var offset := ptr - prpage;
      assert offset < PAGE_SIZE && offset % Size(blk) == 0;
      FillDeadbeef(ptr, Size(blk));
      if r.freelistOffset == INVALID_OFFSET {
        mem := mem[ptr := 0];
      } else {
        mem := mem[ptr := prpage + r.freelistOffset];
      }
      pagerefs[p] := r.(freelistOffset := offset, nfree := r.nfree + 1);
      assert pagerefs[..] == prs[p := pagerefs[p]];
      GiveKeeps(h, p, i);
      PushPages(prs, mem0, mem, h, p, i, pagerefs[p]);
      ChainsFrame(prs, pagerefs[..], sizebases[..], allbase, h, Give(h, p, i));
      BitsFrame(inuse[..], h, Give(h, p, i));
      h := Give(h, p, i);
    }

    /** remove_lists and freepageref on a page whose blocks are all free. */
    method RemovePage(p: PageRef)
      requires Valid() && p in h.pages
      modifies this`h, this`allbase, pagerefs, sizebases, inuse
      ensures Valid() && old(h).pages[p].blk < NSIZES && |old(h).same| == NSIZES && h == DropPage(old(h), p)
    {
      hide PagesOk, OwnersOk, PagesRep, Chained, Without, NoDup;
      ghost var prs, bits, bases, g, blk := pagerefs[..], inuse[..], sizebases[..], h, h.pages[p].blk;
      PageFields(prs, mem, g, p);
      DropKeeps(g, p);
      var b := BlkType(pagerefs[p].pab);
      Unlink(Same, b, p, g.same[b]);
      ghost var mid, midBases := pagerefs[..], sizebases[..];
      ChainedFrame(prs, mid, All, allbase, g.all);
      Unlink(All, b, p, g.all);
      DropChains(prs, mid, pagerefs[..], bases, midBases, g, p, allbase);
      LinksOnly(prs, pagerefs[..], mem, g, DropPage(g, p));
      inuse[p / 32] := inuse[p / 32][p % 32 := false];
      assert inuse[..] == SetBit(bits, p, false);
      SetBitRep(bits, g, DropPage(g, p), p, false);
      h := DropPage(h, p);
    }

    /** The page search of subpage_kfree: the page that covers the address, or NULL if there is none. */
    method FindPage(ptr: nat) returns (pr: int)
      requires Valid()
      ensures pr == NULL ==> forall p :: p in h.pages ==> !Covers(h.pages[p], ptr)
      ensures pr != NULL ==> 0 <= pr && pr in h.pages && Covers(h.pages[pr], ptr)
    {
      hide HeapInv, BitsRep, ChainsRep, PagesRep, PageAddr;
      AllListFacts(pagerefs[..], sizebases[..], allbase, mem, h);
      ghost var s, k := h.all, 0;
      pr := allbase;
      while pr != NULL
        invariant 0 <= k <= |s| && pr == From(s, k)
        invariant forall x :: 0 <= x < k ==> !Covers(h.pages[s[x]], ptr)
        decreases |s| - k
      {
        assert pr == s[k] && s[k] in s && LinkedAt(pagerefs[..], All, s, k);
        if PageAddr(pagerefs[pr].pab) <= ptr < PageAddr(pagerefs[pr].pab) + PAGE_SIZE {
          return;
        }
        pr, k := pagerefs[pr].nextAll, k + 1;
      }
    }

    /**
     * subpage_kfree, for any address but that of a block already free: 0 when a block went back to its page, -1 when
     * no page of ours covers the address and the caller has to free whole pages, and a panic, written -2 here, when
     * the address is on such a page but at no block.
     */
    method SubpageKfree(ptr: nat) returns (r: int, ghost b: Block)
      requires Valid() && !IsFreeBlock(h, ptr)
      modifies this, pagerefs, inuse, sizebases
      ensures Valid() && (r == 0 || r == -1 || r == -2) && (r != 0 ==> h == old(h))
      ensures r == 0 ==>
                b.Small? && LiveAt(old(h), b, ptr) && |old(h).same| == NSIZES && h == FreeBlock(old(h), b.pr, b.idx)
      ensures r == -1 ==> forall p :: p in old(h).pages ==> !Covers(old(h).pages[p], ptr)
      ensures r == -2 ==> exists p :: p in old(h).pages && BesideBlocks(old(h).pages[p], ptr)
    {
      hide HeapInv, BitsRep, ChainsRep, PagesRep, PerPage, Size, BlockAddr, DropPage, Give, PageAddr, BlkType,
           IsFreeBlock;
      b := Large(0);
      var pr := FindPage(ptr);
      if pr == NULL {
        return -1, b;
      }
      PageFields(pagerefs[..], mem, h, pr);
      var blk := BlkType(pagerefs[pr].pab);
      var offset := ptr - PageAddr(pagerefs[pr].pab);
      SizeFacts(blk);
      if offset >= PAGE_SIZE || offset % Size(blk) != 0 {
        return -2, b;
      }
      ghost var i := BlockOfOffset(h, pr, ptr);
      b := Small(pr, i);
      r := FreeIn(pr, ptr, i);
    }

    /** The rest of subpage_kfree once the page is found. */
    method FreeIn(p: PageRef, ptr: nat, ghost i: nat) returns (r: int)
      requires Valid() && p in h.pages && i in h.pages[p].used && h.pages[p].blk < NSIZES
      requires ptr == BlockAddr(h.pages[p], i)
      modifies this, pagerefs, inuse, sizebases
      ensures Valid() && |old(h).same| == NSIZES && r == 0 && h == FreeBlock(old(h), p, i)
    {
      hide PagesOk, OwnersOk, BitsRep, Chained, PagesRep, PerPage, Size, BlockAddr, DropPage;
      ghost var g := h;
      PushFree(p, ptr, i);
      PageFields(pagerefs[..], mem, h, p);
      BlocksBound(h, p);
      assert pagerefs[p].nfree <= PerPage(BlkType(pagerefs[p].pab));
      if pagerefs[p].nfree == PerPage(BlkType(pagerefs[p].pab)) {
        RemovePage(p);
      }
      r := 0;
    }

    /**
     * kfree, for any address but that of a small block already free. A live block at the address is released; if there
     * is none, nothing changes. The panic and the failed assertion, !ok here, are for exactly the misplaced addresses.
     */
    method Kfree(ptr: nat) returns (ok: bool)
      requires Valid() && !IsFreeBlock(h, ptr)
      modifies this, pagerefs, inuse, sizebases
      ensures Valid() && (ok <==> !Misplaced(old(h), ptr))
      ensures forall b :: LiveAt(old(h), b, ptr) ==> ok && Released(old(h), b, h)
      ensures (forall b :: !LiveAt(old(h), b, ptr)) ==> h == old(h)
    {
      hide HeapInv, BitsRep, ChainsRep, PagesRep, PerPage, Size, BlockAddr, DropPage, Give, IsFreeBlock, LiveAt,
           Released, BesideBlocks, Covers;
      if ptr == 0 {
        NothingAtZero(h);
        return true;
      }
      var r, b := SubpageKfree(ptr);
      if r == -2 {
        NotAtBlock(old(h), ptr);
        ok := false;
      } else if r == 0 {
        SmallReleased(old(h), b, ptr, h);
        ok := true;
      } else if ptr % PAGE_SIZE != 0 {
        NotOnPage(old(h), ptr);
        ok := false;
      } else {
        // free_kpages leaks the pages
        LargeReleased(h, ptr);
        ghost var n := ptr / PAGE_SIZE;
        if n in h.runs {
          assert LiveAt(old(h), Large(n), ptr);
          ghost var g := DropRun(h, n);
          DropRunKeeps(h, n);
          OwnerOnly(pagerefs[..], inuse[..], sizebases[..], allbase, mem, h, g);
          h := g;
        }
        ok := true;
      }
    }

    /** The owner of a live block may write anywhere in it: no free list runs through memory that is in use. */
    method ClientStore(a: nat, v: nat, ghost b: Block)
      requires Valid() && IsLive(h, b) && Start(h, b) <= a < Start(h, b) + Length(h, b)
      modifies this`mem
      ensures Valid() && mem == old(mem)[a := v]
    {
      hide HeapInv, BitsRep, ChainsRep, Start, Length;
      mem := mem[a := v];
      StoreKeepsLists(pagerefs[..], old(mem), h, b, a, v);
    }
  }

  lemma StoreKeepsLists(prs: seq<Ref>, mem: map<nat, nat>, h: Heap, b: Block, a: nat, v: nat)
    requires HeapInv(h) && PagesRep(prs, mem, h) && IsLive(h, b) && Start(h, b) <= a < Start(h, b) + Length(h, b)
    ensures PagesRep(prs, mem[a := v], h)
  {
    var mem' := mem[a := v];
    forall p | p in h.pages ensures p < |prs| && h.pages[p].blk < NSIZES && PageRep(prs[p], mem', h.pages[p]) {
      hide HeapInv, Threaded;
      assert PageRep(prs[p], mem, h.pages[p]);
      StoreKeepsThread(mem, h, p, b, a, v);
    }
  }

  lemma StoreKeepsThread(mem: map<nat, nat>, h: Heap, p: PageRef, b: Block, a: nat, v: nat)
    requires HeapInv(h) && p in h.pages && h.pages[p].blk < NSIZES && Threaded(mem, h.pages[p])
    requires IsLive(h, b) && Start(h, b) <= a < Start(h, b) + Length(h, b)
    ensures Threaded(mem[a := v], h.pages[p])
  {
    var pg, mem' := h.pages[p], mem[a := v];
    assert PageOk(pg);
    forall k | 0 <= k < |pg.free|
      ensures BlockAddr(pg, pg.free[k]) in mem' && mem'[BlockAddr(pg, pg.free[k])] == NextFree(pg, k)
    {
      assert pg.free[k] in pg.free;
      assert BlockAddr(pg, pg.free[k]) in mem && mem[BlockAddr(pg, pg.free[k])] == NextFree(pg, k);
      FreeApartFromLive(h, p, pg.free[k], b);
    }
  }

  /** A free block and a live block never overlap. */
  lemma FreeApartFromLive(h: Heap, p: PageRef, j: nat, b: Block)
    requires HeapInv(h) && p in h.pages && h.pages[p].blk < NSIZES && j in h.pages[p].free && IsLive(h, b)
    ensures var a := BlockAddr(h.pages[p], j);
            a + Size(h.pages[p].blk) <= Start(h, b) || Start(h, b) + Length(h, b) <= a
  {
    var pg := h.pages[p];
    assert PageOk(pg);
    var lo, hi, o := BlockOwner(h, b);
    SizeFacts(pg.blk);
    SmallInsidePage(pg, j);
    if b.Small? && b.pr == p {
      assert j != b.idx;
      if j < b.idx { MulLess(j, b.idx, Size(pg.blk)); } else { MulLess(b.idx, j, Size(pg.blk)); }
    } else {
      assert h.owner[pg.pn] == Sub(p) && o != Sub(p);
      assert !(lo <= pg.pn < hi);
    }
  }

  /** blocktype: a scan of the size table; a size above the largest class is a panic. */
  method FindBlockType(sz: nat) returns (b: Option<nat>)
    ensures sz <= LARGEST_SUBPAGE_SIZE ==> b == Some(BlockType(sz))
    ensures sz > LARGEST_SUBPAGE_SIZE ==> b == None
  {
    var i := 0;
    while i < NSIZES
      invariant 0 <= i <= NSIZES && forall c: nat :: c < i ==> Size(c) < sz
    {
      if sz <= Size(i) {
        assert Size(7) == LARGEST_SUBPAGE_SIZE;
        return Some(i);
      }
      i := i + 1;
    }
    assert Size(7) < sz;
    b := None;
  }

  // ----- freeing -----

  ghost predicate SameOutsideRange(mem: map<nat, nat>, mem': map<nat, nat>, lo: nat, hi: nat) {
    forall a {:trigger a in mem} {:trigger a in mem'} :: !(lo <= a < hi) && a in mem ==> a in mem' && mem'[a] == mem[a]
  }

  lemma UsedOffset(h: Heap, p: PageRef, i: nat)
    requires HeapInv(h) && p in h.pages && i in h.pages[p].used
    ensures var pg := h.pages[p];
            && pg.blk < NSIZES
            && BlockAddr(pg, i) - pg.pn * PAGE_SIZE == i * Size(pg.blk) && 0 <= i * Size(pg.blk) < PAGE_SIZE
            && (i * Size(pg.blk)) % Size(pg.blk) == 0
  {
    var pg := h.pages[p];
    assert PageOk(pg);
    SizeFacts(pg.blk);
    SmallInsidePage(pg, i);
    MultipleMod(i, Size(pg.blk));
  }

  lemma GiveThreaded(mem: map<nat, nat>, mem': map<nat, nat>, pg: Page, i: nat)
    requires PageOk(pg) && i in pg.used && Threaded(mem, pg)
    requires BlockAddr(pg, i) in mem'
    requires mem'[BlockAddr(pg, i)] == if pg.free == [] then 0 else BlockAddr(pg, pg.free[0])
    requires SameOutsideRange(mem, mem', BlockAddr(pg, i), BlockAddr(pg, i) + Size(pg.blk))
    ensures Threaded(mem', GiveTo(pg, i))
  {
    var g := GiveTo(pg, i);
    forall k | 0 <= k < |g.free|
      ensures BlockAddr(g, g.free[k]) in mem' && mem'[BlockAddr(g, g.free[k])] == NextFree(g, k)
    {
      if k > 0 { assert pg.free[k - 1] in pg.free; }
      hide PerPage, PageOk, Threaded, SameOutsideRange, Size;
      if k > 0 {
        KeptBlock(mem, mem', pg, i, k - 1);
        assert g.free[k] == pg.free[k - 1] && NextFree(g, k) == NextFree(pg, k - 1);
      }
    }
  }

  lemma KeptBlock(mem: map<nat, nat>, mem': map<nat, nat>, pg: Page, i: nat, k: nat)
    requires PageOk(pg) && Threaded(mem, pg) && k < |pg.free| && pg.free[k] != i
    requires SameOutsideRange(mem, mem', BlockAddr(pg, i), BlockAddr(pg, i) + Size(pg.blk))
    ensures BlockAddr(pg, pg.free[k]) in mem' && mem'[BlockAddr(pg, pg.free[k])] == NextFree(pg, k)
  {
    var j := pg.free[k];
    assert j in pg.free;
    assert BlockAddr(pg, j) in mem && mem[BlockAddr(pg, j)] == NextFree(pg, k);
    if j < i { MulLess(j, i, Size(pg.blk)); } else { MulLess(i, j, Size(pg.blk)); }
    hide PageOk, Threaded, NextFree;
  }

  /** What a push of block i does to memory: the block is overwritten, and its first word links to the list. */
  ghost predicate Pushed(r: Ref, mem: map<nat, nat>, mem': map<nat, nat>, pg: Page, i: nat)
    requires pg.blk < NSIZES
  {
    && SameOutsideRange(mem, mem', BlockAddr(pg, i), BlockAddr(pg, i) + Size(pg.blk))
    && BlockAddr(pg, i) in mem'
    && mem'[BlockAddr(pg, i)] == if r.freelistOffset == INVALID_OFFSET then 0 else pg.pn * PAGE_SIZE + r.freelistOffset
  }

  lemma PushPages(prs: seq<Ref>, mem: map<nat, nat>, mem': map<nat, nat>, h: Heap, p: PageRef, i: nat, r: Ref)
    requires HeapInv(h) && PagesRep(prs, mem, h) && p in h.pages && i in h.pages[p].used
    requires h.pages[p].blk < NSIZES && p < |prs|
    requires Pushed(prs[p], mem, mem', h.pages[p], i)
    requires r == prs[p].(freelistOffset := i * Size(h.pages[p].blk), nfree := prs[p].nfree + 1)
    ensures PagesRep(prs[p := r], mem', Give(h, p, i))
  {
    var pg, g := h.pages[p], Give(h, p, i);
    assert PageOk(pg) && PageRep(prs[p], mem, pg);
    FreeOffsetValid(prs[p], mem, pg);
    GiveThreaded(mem, mem', pg, i);
    assert PageRep(r, mem', g.pages[p]);
    SizeFacts(pg.blk);
    SmallInsidePage(pg, i);
    hide Size, PerPage, Threaded, SamePage, BlockAddr;
    forall q | q in g.pages && q != p
      ensures q < |prs| && g.pages[q].blk < NSIZES && PageRep(prs[q], mem', g.pages[q])
    {
      DistinctPages(h, p, q);
      RangeInPage(mem, mem', BlockAddr(pg, i), BlockAddr(pg, i) + Size(pg.blk), pg.pn, h.pages[q].pn);
      ThreadedFrame(mem, mem', h.pages[q]);
    }
  }

  lemma FreeOffsetValid(r: Ref, mem: map<nat, nat>, pg: Page)
    requires PageOk(pg) && PageRep(r, mem, pg)
    ensures r.freelistOffset == INVALID_OFFSET <==> pg.free == []
    ensures pg.free != [] ==> pg.pn * PAGE_SIZE + r.freelistOffset == BlockAddr(pg, pg.free[0])
  {
    if pg.free != [] { FirstOffset(pg); }
  }

  lemma SameBlock(pg: Page, i: nat, j: nat)
    requires pg.blk < NSIZES && BlockAddr(pg, i) == BlockAddr(pg, j)
    ensures i == j
  {
    SameOffset(pg.blk, i, j);
  }

  lemma SameAddr(g: Page, pg: Page, i: nat)
    requires g.pn == pg.pn && g.blk == pg.blk < NSIZES
    ensures BlockAddr(g, i) == BlockAddr(pg, i)
  {
  }

  /** Whatever list starts with the block pushed goes on as the old list did, up to that block. */
  lemma {:induction false} FollowsOldList(r: Ref, mem: map<nat, nat>, mem': map<nat, nat>, pg: Page, i: nat, g: Page,
                                          k: nat)
    requires PageOk(pg) && pg.blk < NSIZES && PageRep(r, mem, pg) && Pushed(r, mem, mem', pg, i)
    requires g.pn == pg.pn && g.blk == pg.blk && |g.free| == |pg.free| + 1 && g.free[0] == i && Threaded(mem', g)
    requires k < |pg.free| && i !in pg.free[..k]
    ensures g.free[k + 1] == pg.free[k]
    decreases k
  {
    hide PageOk, SameOutsideRange, Size, PerPage, BlockAddr;
    var a := BlockAddr(g, g.free[k]);
    assert a in mem' && mem'[a] == NextFree(g, k) == BlockAddr(g, g.free[k + 1]);
    hide Threaded;
    SameAddr(g, pg, g.free[k]);
    SameAddr(g, pg, g.free[k + 1]);
    if k == 0 {
      FreeOffsetValid(r, mem, pg);
    } else {
      assert pg.free[k - 1] in pg.free[..k];
      FollowsOldList(r, mem, mem', pg, i, g, k - 1);
      KeptBlock(mem, mem', pg, i, k - 1);
    }
    SameBlock(pg, g.free[k + 1], pg.free[k]);
  }

  /**
   * Pushing a block that is already free: the list then runs in a circle, so that no free list is
   * the one the descriptor and the memory stand for. The count after the push is still within
   * bounds while a block of the page is live, so kfree's assertion does not notice; when one block
   * is live, the count says that the whole page is free.
   */
  lemma SecondFreeBreaks(r: Ref, mem: map<nat, nat>, mem': map<nat, nat>, pg: Page, i: nat, g: Page)
    requires PageOk(pg) && PageRep(r, mem, pg) && i in pg.free && Pushed(r, mem, mem', pg, i) && PageOk(g)
    ensures !PageRep(r.(freelistOffset := i * Size(pg.blk), nfree := r.nfree + 1), mem', g)
    ensures r.nfree + 1 <= PerPage(pg.blk) <==> pg.used != {}
    ensures r.nfree + 1 == PerPage(pg.blk) <==> |pg.used| == 1
  {
    BlocksConserved(pg);
    hide Size, PerPage, PageRep, Pushed;
    if PageRep(r.(freelistOffset := i * Size(pg.blk), nfree := r.nfree + 1), mem', g) {
      var j := ListReturns(r, mem, mem', pg, i, g);
    }
  }

  /** A list that the descriptor and the memory stand for comes back to its first block. */
  lemma ListReturns(r: Ref, mem: map<nat, nat>, mem': map<nat, nat>, pg: Page, i: nat, g: Page) returns (j: nat)
    requires PageOk(pg) && pg.blk < NSIZES && PageRep(r, mem, pg) && i in pg.free && Pushed(r, mem, mem', pg, i)
    requires g.blk < NSIZES && PageRep(r.(freelistOffset := i * Size(pg.blk), nfree := r.nfree + 1), mem', g)
    ensures 0 < j < |g.free| && g.free[j] == g.free[0]
  {
    hide Size, PerPage, Threaded, Pushed, PageOk;
    PabFields(pg.pn, pg.blk);
    PabFields(g.pn, g.blk);
    SameOffset(pg.blk, g.free[0], i);
    var k: nat :| k < |pg.free| && pg.free[k] == i;
    NoDupBefore(pg, k);
    FollowsOldList(r, mem, mem', pg, i, g, k);
    j := k + 1;
  }

  lemma SameOffset(blk: nat, i: nat, j: nat)
    requires blk < NSIZES && i * Size(blk) == j * Size(blk)
    ensures i == j
  {
    SizeFacts(blk);
    if i < j { MulLess(i, j, Size(blk)); } else if j < i { MulLess(j, i, Size(blk)); }
  }

  lemma NoDupBefore(pg: Page, k: nat)
    requires PageOk(pg) && k < |pg.free|
    ensures pg.free[k] !in pg.free[..k]
  {
  }

  lemma DistinctPages(h: Heap, p: PageRef, q: PageRef)
    requires HeapInv(h) && p in h.pages && q in h.pages && p != q
    ensures h.pages[p].pn != h.pages[q].pn && PageOk(h.pages[q])
  {
  }

  lemma RangeInPage(mem: map<nat, nat>, mem': map<nat, nat>, lo: nat, hi: nat, pn: nat, q: nat)
    requires SameOutsideRange(mem, mem', lo, hi) && pn * PAGE_SIZE <= lo && hi <= (pn + 1) * PAGE_SIZE && q != pn
    ensures SamePage(mem, mem', q)
  {
  }

  lemma PageFields(prs: seq<Ref>, mem: map<nat, nat>, h: Heap, p: PageRef)
    requires PagesRep(prs, mem, h) && p in h.pages
    ensures p < |prs| && h.pages[p].blk < NSIZES
    ensures BlkType(prs[p].pab) == h.pages[p].blk && PageAddr(prs[p].pab) == h.pages[p].pn * PAGE_SIZE
    ensures prs[p].nfree == |h.pages[p].free|
  {
    hide PageRep, BlkType, PageAddr;
    RefFacts(prs[p], mem, h.pages[p]);
  }

  lemma BlocksBound(h: Heap, p: PageRef)
    requires HeapInv(h) && p in h.pages
    ensures h.pages[p].blk < NSIZES && |h.pages[p].free| <= PerPage(h.pages[p].blk)
  {
    BlocksConserved(h.pages[p]);
  }

  lemma DropChains(prs: seq<Ref>, mid: seq<Ref>, prs': seq<Ref>, bases: seq<int>, bases': seq<int>, h: Heap, p: PageRef,
                   allbase': int)
    requires HeapInv(h) && p in h.pages && h.pages[p].blk < NSIZES && |prs| == |mid| == |prs'| == NPAGEREFS
    requires |bases| == |bases'| == |h.same| == NSIZES
    requires forall b: nat :: b < NSIZES ==> Chained(prs, Same, bases[b], h.same[b])
    requires forall q :: 0 <= q < |prs| ==> SameBut(Same, prs[q], mid[q])
    requires forall q :: 0 <= q < |prs| ==> SameBut(All, mid[q], prs'[q])
    requires Chained(mid, Same, bases'[h.pages[p].blk], Without(h.same[h.pages[p].blk], p))
    requires forall b: nat :: b < NSIZES && b != h.pages[p].blk ==> bases'[b] == bases[b]
    requires forall q :: 0 <= q < |prs| && q !in h.same[h.pages[p].blk] ==> mid[q] == prs[q]
    requires Chained(prs', All, allbase', Without(h.all, p))
    ensures ChainsRep(prs', bases', allbase', DropPage(h, p))
  {
    var g, blk := DropPage(h, p), h.pages[p].blk;
    forall b: nat | b < NSIZES ensures Chained(prs', Same, bases'[b], g.same[b]) {
      hide Chained, Without, HeapInv, SameBut, ChainsRep;
      if b != blk {
        OtherChain(prs, mid, bases[b], h, b, blk);
      }
      SameLinks(mid, prs', bases'[b], g.same[b]);
    }
    hide HeapInv, Chained, Without, SameBut;
  }

  /** Unlinking from the list of all pages leaves the size lists alone. */
  lemma SameLinks(mid: seq<Ref>, prs': seq<Ref>, head: int, s: seq<PageRef>)
    requires Chained(mid, Same, head, s) && |mid| == |prs'|
    requires forall q :: 0 <= q < |mid| ==> SameBut(All, mid[q], prs'[q])
    ensures Chained(prs', Same, head, s)
  {
    hide Chained;
    ChainedFrame(mid, prs', Same, head, s);
  }

  /** Unlinking from one size list leaves the others alone, as no page is on two of them. */
  lemma OtherChain(prs: seq<Ref>, mid: seq<Ref>, head: int, h: Heap, b: nat, blk: nat)
    requires HeapInv(h) && b < NSIZES && blk < NSIZES && b != blk && |prs| == |mid|
    requires Chained(prs, Same, head, h.same[b])
    requires forall q :: 0 <= q < |prs| && q !in h.same[blk] ==> mid[q] == prs[q]
    ensures Chained(mid, Same, head, h.same[b])
  {
    SizeListMembers(h, b);
    SizeListMembers(h, blk);
    hide Chained, HeapInv;
    ChainedFrame(prs, mid, Same, head, h.same[b]);
  }

  lemma LinksOnly(prs: seq<Ref>, prs': seq<Ref>, mem: map<nat, nat>, h: Heap, g: Heap)
    requires PagesRep(prs, mem, h) && |prs'| == |prs|
    requires forall q :: 0 <= q < |prs| ==>
               prs'[q].pab == prs[q].pab && prs'[q].freelistOffset == prs[q].freelistOffset
                   && prs'[q].nfree == prs[q].nfree
    requires forall q :: q in g.pages ==> q in h.pages && g.pages[q] == h.pages[q]
    ensures PagesRep(prs', mem, g)
  {
    hide Threaded;
  }

  predicate Covers(pg: Page, ptr: nat) {
    pg.pn * PAGE_SIZE <= ptr < (pg.pn + 1) * PAGE_SIZE
  }

  lemma AllListFacts(prs: seq<Ref>, bases: seq<int>, allbase: int, mem: map<nat, nat>, h: Heap)
    requires HeapInv(h) && ChainsRep(prs, bases, allbase, h) && PagesRep(prs, mem, h)
    ensures |prs| == NPAGEREFS && allbase == From(h.all, 0) && |h.same| == NSIZES
    ensures forall p :: p in h.all ==>
              p in h.pages && p < |prs| && h.pages[p].blk < NSIZES && PageAddr(prs[p].pab) == h.pages[p].pn * PAGE_SIZE
    ensures forall k :: 0 <= k < |h.all| ==> LinkedAt(prs, All, h.all, k)
    ensures forall p :: p in h.pages ==> p in h.all
  {
    var s := h.all;
    assert forall p :: p in s <==> p in h.pages;
    hide Chained, ChainsRep, PageRep, PageAddr, HeapInv;
    forall p | p in s
      ensures p < |prs| && h.pages[p].blk < NSIZES && PageAddr(prs[p].pab) == h.pages[p].pn * PAGE_SIZE
    {
      PageFields(prs, mem, h, p);
    }
  }

  /** The page that covers a live block's address is the block's own page, and the block is a small one. */
  lemma CoveringPage(h: Heap, b: Block, p: PageRef)
    requires HeapInv(h) && IsLive(h, b) && p in h.pages && Covers(h.pages[p], Start(h, b))
    ensures b.Small? && b.pr == p && h.pages[p].blk < NSIZES
  {
    match b
    case Small(q, i) =>
      assert PageOk(h.pages[q]);
      SizeFacts(h.pages[q].blk);
      SmallInsidePage(h.pages[q], i);
      if q != p { DistinctPages(h, p, q); }
    case Large(r) =>
      LargeIsNotSubpage(h, r, p);
  }

  // ----- the code's critical sections are steps of the runs -----

  /** What SearchSize does for a thread that starts to allocate is a hit or a miss of the run system, and safe. */
  lemma SearchIsStep(s: Sys, t: nat, sz: nat, h': Heap, ptr: Option<nat>)
    requires SysInv(s) && PhaseOf(s, t).Idle? && sz < LARGEST_SUBPAGE_SIZE && Searched(s.h, h', BlockType(sz), ptr)
    ensures ptr.None? ==> StepMiss(s, t, sz, Sys(h', s.phase[t := NeedPage(sz)]))
    ensures ptr.Some? ==>
              exists b :: StepHit(s, t, sz, b, Sys(h', s.phase)) && GoodBlock(s.h, h', sz, b)
                  && LiveAt(h', b, ptr.value)
  {
    hide HeapInv, PhasesOk, NoIdlePage, BlockType, FirstFit, GoodBlock, LiveChange;
    if ptr.Some? {
      var p := FirstFit(s.h, s.h.same[BlockType(sz)]).value;
      var b := Small(p, s.h.pages[p].free[0]);
      assert StepHit(s, t, sz, b, Sys(h', s.phase));
      HitSafe(s, t, sz, b, Sys(h', s.phase));
      GoodIsLive(s.h, h', sz, b);
    }
  }

  lemma GoodIsLive(h: Heap, h': Heap, sz: nat, b: Block)
    requires GoodBlock(h, h', sz, b)
    ensures IsLive(h', b)
  {
  }

  /** What InstallPage does for a thread that has obtained a page is a fresh allocation, or its failure. */
  lemma InstallIsStep(s: Sys, t: nat, h': Heap, p: PageRef, ptr: nat)
    requires SysInv(s) && PhaseOf(s, t).HavePage?
    requires Installed(s.h, h', p, PhaseOf(s, t).pn, BlockType(PhaseOf(s, t).sz), ptr)
    ensures var sz, s' := PhaseOf(s, t).sz, Sys(h', s.phase[t := Idle]);
            if AllInUse(s.h) then StepFreshFail(s, t, s') && ptr == 0
            else exists b :: StepFresh(s, t, sz, b, s') && GoodBlock(s.h, h', sz, b) && LiveAt(h', b, ptr)
  {
    hide HeapInv, NoIdlePage, BlockType, GoodBlock, LiveChange, Size, PerPage;
    var sz, s' := PhaseOf(s, t).sz, Sys(h', s.phase[t := Idle]);
    if !AllInUse(s.h) {
      var g := AddPage(s.h, p, PhaseOf(s, t).pn, BlockType(sz));
      var b := Small(p, g.pages[p].free[0]);
      assert StepFresh(s, t, sz, b, s');
      FreshSafe(s, t, sz, b, s');
      GoodIsLive(s.h, h', sz, b);
    }
  }

  /** What Kfree does to a live block is a free of the run system, and takes away that block alone. */
  lemma KfreeIsStep(s: Sys, t: nat, b: Block, ptr: nat, h': Heap)
    requires SysInv(s) && PhaseOf(s, t).Idle? && LiveAt(s.h, b, ptr) && Released(s.h, b, h')
    ensures StepFree(s, t, b, Sys(h', s.phase)) && LiveChange(s.h, h', None, Some(b))
  {
    hide HeapInv, PhasesOk, NoIdlePage, LiveChange;
    FreeSafe(s, t, b, Sys(h', s.phase));
  }

  // ----- what an address handed to kfree can be -----

  ghost predicate LiveAt(h: Heap, b: Block, ptr: nat) {
    IsLive(h, b) && Start(h, b) == ptr
  }

  /** The address of a block that is on a free list; freeing it again is the mistake that kfree does not notice. */
  ghost predicate IsFreeBlock(h: Heap, ptr: nat) {
    exists p, i :: p in h.pages && i in h.pages[p].free && h.pages[p].blk < NSIZES && BlockAddr(h.pages[p], i) == ptr
  }

  /** On the page, but not where a block of its size starts. */
  predicate BesideBlocks(pg: Page, ptr: nat) {
    pg.blk < NSIZES && Size(pg.blk) > 0 && Covers(pg, ptr) && (ptr - pg.pn * PAGE_SIZE) % Size(pg.blk) != 0
  }

  ghost predicate Misplaced(h: Heap, ptr: nat) {
    && ptr != 0
    && ((exists p :: p in h.pages && BesideBlocks(h.pages[p], ptr))
        || (ptr % PAGE_SIZE != 0 && forall p :: p in h.pages ==> !Covers(h.pages[p], ptr)))
  }

  ghost predicate Released(h: Heap, b: Block, h': Heap)
    requires IsLive(h, b)
  {
    match b
    case Small(p, i) => |h.same| == NSIZES && h' == FreeBlock(h, p, i)
    case Large(r) => h' == DropRun(h, r)
  }

  /** An aligned address on a page is that of one of its blocks; if no free one, of a live one. */
  lemma BlockOfOffset(h: Heap, p: PageRef, ptr: nat) returns (i: nat)
    requires HeapInv(h) && p in h.pages && h.pages[p].blk < NSIZES && Covers(h.pages[p], ptr) && !IsFreeBlock(h, ptr)
    requires Size(h.pages[p].blk) > 0 && (ptr - h.pages[p].pn * PAGE_SIZE) % Size(h.pages[p].blk) == 0
    ensures i in h.pages[p].used && BlockAddr(h.pages[p], i) == ptr && LiveAt(h, Small(p, i), ptr)
  {
    var pg := h.pages[p];
    assert PageOk(pg);
    i := OffsetIndex(pg.blk, ptr - pg.pn * PAGE_SIZE);
    hide Size, PerPage;
    assert BlockAddr(pg, i) == ptr;
  }

  lemma OffsetIndex(blk: nat, offset: nat) returns (i: nat)
    requires blk < NSIZES && offset < PAGE_SIZE && Size(blk) > 0 && offset % Size(blk) == 0
    ensures i < PerPage(blk) && i * Size(blk) == offset
  {
    i := offset / Size(blk);
  }

  /** Two live blocks do not start at the same address. */
  lemma OneLiveAt(h: Heap, b: Block, c: Block, ptr: nat)
    requires HeapInv(h) && LiveAt(h, b, ptr) && LiveAt(h, c, ptr)
    ensures b == c
  {
    if b != c {
      LiveDisjoint(h, b, c);
      PositiveLength(h, b);
      PositiveLength(h, c);
    }
  }

  lemma PositiveLength(h: Heap, b: Block)
    requires HeapInv(h) && IsLive(h, b)
    ensures Length(h, b) > 0
  {
    if b.Small? { SizeFacts(h.pages[b.pr].blk); }
  }

  lemma NothingAtZero(h: Heap)
    requires HeapInv(h)
    ensures !Misplaced(h, 0) && forall b :: !LiveAt(h, b, 0)
  {
    forall b ensures !LiveAt(h, b, 0) {
      if IsLive(h, b) && b.Small? { assert PageOk(h.pages[b.pr]); }
    }
  }

  lemma SmallReleased(h: Heap, b: Block, ptr: nat, h': Heap)
    requires HeapInv(h) && b.Small? && LiveAt(h, b, ptr) && |h.same| == NSIZES && h' == FreeBlock(h, b.pr, b.idx)
    ensures !Misplaced(h, ptr) && forall c :: LiveAt(h, c, ptr) ==> Released(h, c, h')
  {
    hide FreeBlock;
    forall c | LiveAt(h, c, ptr) ensures c == b { OneLiveAt(h, b, c, ptr); }
    LiveWellPlaced(h, b, ptr);
  }

  /** The address of a live block passes kfree's checks. */
  lemma LiveWellPlaced(h: Heap, b: Block, ptr: nat)
    requires HeapInv(h) && LiveAt(h, b, ptr)
    ensures !Misplaced(h, ptr)
  {
    hide HeapInv;
    forall p | p in h.pages ensures !BesideBlocks(h.pages[p], ptr) {
      if Covers(h.pages[p], ptr) {
        CoveringPage(h, b, p);
        UsedOffset(h, p, b.idx);
      }
    }
    match b
    case Small(p, i) => SmallCovered(h, p, i);
    case Large(r) => MultipleMod(r, PAGE_SIZE);
  }

  lemma SmallCovered(h: Heap, p: PageRef, i: nat)
    requires HeapInv(h) && IsLive(h, Small(p, i))
    ensures Covers(h.pages[p], Start(h, Small(p, i)))
  {
    assert PageOk(h.pages[p]);
    SizeFacts(h.pages[p].blk);
    SmallInsidePage(h.pages[p], i);
  }

  lemma NotAtBlock(h: Heap, ptr: nat)
    requires HeapInv(h) && ptr != 0 && exists p :: p in h.pages && BesideBlocks(h.pages[p], ptr)
    ensures Misplaced(h, ptr) && forall b :: !LiveAt(h, b, ptr)
  {
    hide HeapInv, LiveAt, BesideBlocks;
    forall b ensures !LiveAt(h, b, ptr) {
      if LiveAt(h, b, ptr) { LiveWellPlaced(h, b, ptr); }
    }
  }

  lemma NotOnPage(h: Heap, ptr: nat)
    requires HeapInv(h) && ptr != 0 && ptr % PAGE_SIZE != 0 && forall p :: p in h.pages ==> !Covers(h.pages[p], ptr)
    ensures Misplaced(h, ptr) && forall b :: !LiveAt(h, b, ptr)
  {
    hide HeapInv, LiveAt, Covers;
    forall b ensures !LiveAt(h, b, ptr) {
      if LiveAt(h, b, ptr) { LiveWellPlaced(h, b, ptr); }
    }
  }

  lemma LargeReleased(h: Heap, ptr: nat)
    requires HeapInv(h) && ptr % PAGE_SIZE == 0 && forall p :: p in h.pages ==> !Covers(h.pages[p], ptr)
    ensures !Misplaced(h, ptr)
    ensures forall b :: LiveAt(h, b, ptr) <==> ptr / PAGE_SIZE in h.runs && b == Large(ptr / PAGE_SIZE)
    ensures forall b :: LiveAt(h, b, ptr) ==> Released(h, b, DropRun(h, ptr / PAGE_SIZE))
  {
    hide HeapInv, BlockAddr;
    forall b | LiveAt(h, b, ptr) ensures b == Large(ptr / PAGE_SIZE) {
      if b.Small? { SmallCovered(h, b.pr, b.idx); }
    }
    forall p | p in h.pages ensures !BesideBlocks(h.pages[p], ptr) {}
  }

  function SetLink(r: Ref, c: Chain, v: int): Ref {
    match c case All => r.(nextAll := v) case Same => r.(nextSame := v)
  }

  ghost predicate SameBut(c: Chain, r: Ref, r': Ref) {
    r' == SetLink(r, c, Link(r', c))
  }

  lemma ChainStart(prs: seq<Ref>, c: Chain, head: int, s: seq<PageRef>)
    requires Chained(prs, c, head, s) && s != []
    ensures head == s[0]
  {
  }

  lemma ChainNext(prs: seq<Ref>, c: Chain, head: int, s: seq<PageRef>, k: nat)
    requires Chained(prs, c, head, s) && k < |s|
    ensures s[k] < |prs| && Link(prs[s[k]], c) == if k + 1 < |s| then s[k + 1] else NULL
    ensures k > 0 ==> s[k - 1] < |prs|
  {
    assert LinkedAt(prs, c, s, k);
  }

  lemma NoDupIndex<T>(s: seq<T>, k: nat, n: nat)
    requires NoDup(s) && k < |s| && n < |s|
    ensures s[k] == s[n] <==> k == n
  {
  }

  lemma ChainRemoveHead(prs: seq<Ref>, c: Chain, head: int, s: seq<PageRef>)
    requires Chained(prs, c, head, s) && s != []
    ensures Chained(prs, c, Link(prs[s[0]], c), s[1..])
  {
    var t := s[1..];
    assert LinkedAt(prs, c, s, 0);
    forall i | 0 <= i < |t| ensures LinkedAt(prs, c, t, i) {
      assert LinkedAt(prs, c, s, i + 1);
    }
  }

  lemma ChainRemoveInner(prs: seq<Ref>, c: Chain, head: int, s: seq<PageRef>, k: nat)
    requires Chained(prs, c, head, s) && NoDup(s) && 0 < k < |s|
    ensures Chained(prs[s[k - 1] := SetLink(prs[s[k - 1]], c, Link(prs[s[k]], c))], c, head, s[..k] + s[k + 1..])
  {
    var t := s[..k] + s[k + 1..];
    var prs' := prs[s[k - 1] := SetLink(prs[s[k - 1]], c, Link(prs[s[k]], c))];
    assert LinkedAt(prs, c, s, k);
    forall i | 0 <= i < |t| ensures t[i] < |prs'| && LinkedAt(prs', c, t, i) {
      var j := if i < k then i else i + 1;
      assert t[i] == s[j] && LinkedAt(prs, c, s, j);
      NoDupIndex(s, k - 1, j);
      assert From(t, i + 1) == From(s, if i < k - 1 then i + 1 else i + 2);
    }
    assert From(t, 0) == From(s, 0);
  }

  lemma ChainRemove(prs: seq<Ref>, c: Chain, head: int, s: seq<PageRef>, k: nat)
    requires Chained(prs, c, head, s) && NoDup(s) && k < |s|
    ensures s[k] < |prs| && (k > 0 ==> s[k - 1] < |prs|)
    ensures var next := Link(prs[s[k]], c);
            && (k == 0 ==> Chained(prs, c, next, s[..k] + s[k + 1..]))
            && (k > 0 ==> Chained(prs[s[k - 1] := SetLink(prs[s[k - 1]], c, next)], c, head, s[..k] + s[k + 1..]))
  {
    if k == 0 {
      ChainRemoveHead(prs, c, head, s);
      assert s[..k] + s[k + 1..] == s[1..];
    } else {
      ChainRemoveInner(prs, c, head, s, k);
    }
  }

  lemma OwnerOnly(prs: seq<Ref>, bits: seq<seq<bool>>, bases: seq<int>, allbase: int, mem: map<nat, nat>, h: Heap,
    g: Heap)
    requires BitsRep(bits, h) && ChainsRep(prs, bases, allbase, h) && PagesRep(prs, mem, h)
    requires g.pages == h.pages && g.all == h.all && g.same == h.same
    ensures BitsRep(bits, g) && ChainsRep(prs, bases, allbase, g) && PagesRep(prs, mem, g)
  {
    hide PageRep, Chained;
  }

  lemma ChainsSizes(prs: seq<Ref>, bases: seq<int>, allbase: int, h: Heap)
    requires ChainsRep(prs, bases, allbase, h)
    ensures |prs| == NPAGEREFS && |bases| == NSIZES && |h.same| == NSIZES
  {
  }

  lemma AddPageShape(h: Heap, p: PageRef, pn: nat, blk: nat)
    requires HeapInv(h) && blk < NSIZES
    ensures |h.same| == NSIZES && PerPage(blk) > 0
    ensures var g := AddPage(h, p, pn, blk);
            && p in g.pages && g.pages[p] == FreshPage(pn, blk) && g.pages[p].free != []
            && g.pages.Keys == h.pages.Keys + {p}
            && forall q :: q in h.pages && q != p ==> g.pages[q] == h.pages[q]
  {
    SizeFacts(blk);
  }

  /** The free list of a fresh page starts at its last block. */
  lemma FreshOffset(pn: nat, blk: nat)
    requires blk < NSIZES
    ensures PerPage(blk) > 0 && FreshPage(pn, blk).free != [] && FreshPage(pn, blk).free[0] == PerPage(blk) - 1
    ensures |FreshPage(pn, blk).free| == PerPage(blk)
    ensures (PerPage(blk) - 1) * Size(blk) >= 0
  {
    SizeFacts(blk);
  }

  lemma AddPageChains(prs: seq<Ref>, bases: seq<int>, allbase: int, h: Heap, p: PageRef, pn: nat, blk: nat, r: Ref)
    requires HeapInv(h) && ChainsRep(prs, bases, allbase, h) && p < |prs| && p !in h.pages && blk < NSIZES
    requires r.nextSame == bases[blk] && r.nextAll == allbase
    ensures ChainsRep(prs[p := r], bases[blk := p as int], p, AddPage(h, p, pn, blk))
  {
    hide PagesOk, OwnersOk, NoDup, Down, PerPage, Size;
    var g, prs' := AddPage(h, p, pn, blk), prs[p := r];
    ChainedFrame(prs, prs', All, allbase, h.all);
    ChainedPush(prs', All, allbase, h.all, p);
    forall b: nat | b < NSIZES ensures Chained(prs', Same, bases[blk := p as int][b], g.same[b]) {
      ChainedFrame(prs, prs', Same, bases[b], h.same[b]);
      if b == blk {
        ChainedPush(prs', Same, bases[b], h.same[b], p);
      }
    }
  }

  lemma ChainedPush(prs: seq<Ref>, c: Chain, head: int, s: seq<PageRef>, p: PageRef)
    requires Chained(prs, c, head, s) && p < |prs| && Link(prs[p], c) == head
    ensures Chained(prs, c, p, [p] + s)
  {
    var t := [p] + s;
    forall i | 0 <= i < |t| ensures t[i] < |prs| && LinkedAt(prs, c, t, i) {
      if i > 0 { assert t[i] == s[i - 1] && LinkedAt(prs, c, s, i - 1); }
    }
  }

  lemma OtherPageNumber(h: Heap, pn: nat, q: PageRef)
    requires HeapInv(h) && q in h.pages && (pn in h.owner ==> h.owner[pn].Held?)
    ensures h.pages[q].pn != pn && PageOk(h.pages[q])
  {
  }

  lemma AddPagePages(prs: seq<Ref>, mem: map<nat, nat>, mem': map<nat, nat>, h: Heap, p: PageRef, pn: nat, blk: nat,
    r: Ref)
    requires HeapInv(h) && PagesRep(prs, mem, h) && p < |prs| && p !in h.pages && blk < NSIZES
    requires pn in h.owner ==> h.owner[pn].Held?
    requires SameElsewhere(mem, mem', pn) && Threaded(mem', FreshPage(pn, blk))
    requires r.pab == pn * PAGE_SIZE + blk && r.nfree == PerPage(blk)
    requires r.freelistOffset == (PerPage(blk) - 1) * Size(blk)
    ensures |h.same| == NSIZES && PagesRep(prs[p := r], mem', AddPage(h, p, pn, blk))
  {
    hide ListsOk, OwnersOk, PageOk, Threaded, SameElsewhere, SamePage, Down, Size, PerPage;
    FreshOffset(pn, blk);
    AddPageShape(h, p, pn, blk);
    var g := AddPage(h, p, pn, blk);
    assert PageRep(r, mem', g.pages[p]);
    forall q | q in g.pages && q != p
      ensures q < |prs| && g.pages[q].blk < NSIZES && PageRep(prs[q], mem', g.pages[q])
    {
      OtherPageNumber(h, pn, q);
      ElsewhereIsSamePage(mem, mem', pn, h.pages[q].pn);
      ThreadedFrame(mem, mem', h.pages[q]);
    }
  }

  function SetBit(bits: seq<seq<bool>>, p: nat, v: bool): seq<seq<bool>>
    requires p / 32 < |bits| && p % 32 < |bits[p / 32]|
  {
    bits[p / 32 := bits[p / 32][p % 32 := v]]
  }

  predicate IsFull(w: seq<bool>) {
    forall j :: 0 <= j < |w| ==> w[j]
  }

  lemma FullOrNot(w: seq<bool>, j: nat)
    requires |w| == 32 && !IsFull(w) && j < 32 && forall x :: 0 <= x <= j ==> w[x]
    ensures j + 1 < 32
  {
  }

  lemma BitOf(i: nat, j: nat)
    requires j < 32
    ensures (i * 32 + j) / 32 == i && (i * 32 + j) % 32 == j
  {
  }

  lemma WordInUse(bits: seq<seq<bool>>, h: Heap, i: nat, n: nat)
    requires BitsRep(bits, h) && i < INUSE_WORDS && n <= 32 && forall x :: 0 <= x < n ==> bits[i][x]
    requires forall q: nat :: q < i * 32 ==> q in h.pages
    ensures forall q: nat :: q < i * 32 + n ==> q in h.pages
  {
    forall q: nat | q < i * 32 + n ensures q in h.pages {
      if q >= i * 32 {
        BitOf(i, q - i * 32);
        assert bits[i][q - i * 32];
        assert InUse(bits, q);
      }
    }
  }

  lemma SetBitRep(bits: seq<seq<bool>>, h: Heap, h': Heap, p: nat, v: bool)
    requires BitsRep(bits, h) && p < NPAGEREFS
    requires forall q :: q != p ==> (q in h'.pages <==> q in h.pages)
    requires p in h'.pages <==> v
    ensures BitsRep(SetBit(bits, p, v), h')
  {
    var bits' := SetBit(bits, p, v);
    forall q: nat | q < NPAGEREFS ensures InUse(bits', q) <==> q in h'.pages {
      if q != p {
        assert q / 32 != p / 32 || q % 32 != p % 32;
        assert InUse(bits', q) <==> InUse(bits, q);
      }
    }
  }

  /** Memory outside page pn is as it was. */
  ghost predicate SameElsewhere(mem: map<nat, nat>, mem': map<nat, nat>, pn: nat) {
    forall a {:trigger a in mem} {:trigger a in mem'} :: !(pn * PAGE_SIZE <= a < (pn + 1) * PAGE_SIZE) && a in mem ==>
      a in mem' && mem'[a] == mem[a]
  }

  lemma ElsewhereIsSamePage(mem: map<nat, nat>, mem': map<nat, nat>, pn: nat, q: nat)
    requires SameElsewhere(mem, mem', pn) && q != pn
    ensures SamePage(mem, mem', q)
  {
  }

  lemma BlockInsidePage(pn: nat, blk: nat, i: nat)
    requires pn > 0 && blk < NSIZES && i < PerPage(blk)
    ensures pn * PAGE_SIZE <= BlockAddr(FreshPage(pn, blk), i) < (pn + 1) * PAGE_SIZE
  {
    FreshPageOk(pn, blk);
    SizeFacts(blk);
    SmallInsidePage(FreshPage(pn, blk), i);
  }

  /** Block j of a page under construction points to block j-1. */
  ghost predicate Cell(mem: map<nat, nat>, pg: Page, j: nat)
    requires pg.blk < NSIZES
  {
    BlockAddr(pg, j) in mem && mem[BlockAddr(pg, j)] == if j == 0 then 0 else BlockAddr(pg, j - 1)
  }

  lemma FirstCell(mem: map<nat, nat>, pg: Page)
    requires pg.blk < NSIZES
    ensures BlockAddr(pg, 0) == pg.pn * PAGE_SIZE && Cell(mem[pg.pn * PAGE_SIZE := 0], pg, 0)
  {
  }

  lemma NextCell(mem: map<nat, nat>, pg: Page, i: nat)
    requires pg.blk < NSIZES && i > 0 && forall j: nat :: j < i ==> Cell(mem, pg, j)
    ensures BlockAddr(pg, i) == pg.pn * PAGE_SIZE + i * Size(pg.blk)
    ensures pg.pn * PAGE_SIZE + (i - 1) * Size(pg.blk) >= 0
    ensures var mem' := mem[BlockAddr(pg, i) := pg.pn * PAGE_SIZE + (i - 1) * Size(pg.blk)];
            forall j: nat :: j <= i ==> Cell(mem', pg, j)
  {
    var v: nat := BlockAddr(pg, i - 1);
    var mem' := mem[BlockAddr(pg, i) := v];
    forall j: nat | j <= i ensures Cell(mem', pg, j) {
      if j < i {
        assert Cell(mem, pg, j);
        MulLess(j, i, Size(pg.blk));
      }
    }
  }

  lemma CellsAreThreaded(mem: map<nat, nat>, pn: nat, blk: nat)
    requires blk < NSIZES && forall j: nat :: j < PerPage(blk) ==> Cell(mem, FreshPage(pn, blk), j)
    ensures Threaded(mem, FreshPage(pn, blk))
  {
    hide Size, PerPage, BlockAddr;
    var pg := FreshPage(pn, blk);
    forall k | 0 <= k < |pg.free|
      ensures BlockAddr(pg, pg.free[k]) in mem && mem[BlockAddr(pg, pg.free[k])] == NextFree(pg, k)
    {
      var j := PerPage(blk) - 1 - k;
      assert pg.free[k] == j && Cell(mem, pg, j);
      assert k + 1 < |pg.free| ==> pg.free[k + 1] == j - 1;
    }
  }

  lemma {:induction false} FirstFitIs(h: Heap, s: seq<PageRef>, k: nat)
    requires (forall p :: p in s ==> p in h.pages) && k <= |s|
    requires (forall j :: 0 <= j < k ==> h.pages[s[j]].free == []) && (k < |s| ==> h.pages[s[k]].free != [])
    ensures FirstFit(h, s) == if k < |s| then Some(s[k]) else None
    decreases k
  {
    if k > 0 {
      assert s[0] in s;
      FirstFitIs(h, s[1..], k - 1);
    }
  }

  /** The walk stops at the first page with a free block, or at the end. */
  lemma SearchEnds(h: Heap, blk: nat, k: nat)
    requires blk < |h.same| && (forall p :: p in h.same[blk] ==> p in h.pages && h.pages[p].blk == blk < NSIZES)
    requires k <= |h.same[blk]| && (forall j :: 0 <= j < k ==> h.pages[h.same[blk][j]].free == [])
    requires k < |h.same[blk]| ==> h.pages[h.same[blk][k]].free != []
    ensures k == |h.same[blk]| ==> Searched(h, h, blk, None)
    ensures k < |h.same[blk]| ==>
              var p := h.same[blk][k]; Searched(h, Take(h, p), blk, Some(BlockAddr(h.pages[p], h.pages[p].free[0])))
  {
    hide FirstFit, BlockAddr, Take;
    FirstFitIs(h, h.same[blk], k);
  }

  /** What a walk of the list of one size relies on. */
  lemma SizeListFacts(prs: seq<Ref>, bases: seq<int>, allbase: int, mem: map<nat, nat>, h: Heap, blk: nat)
    requires HeapInv(h) && ChainsRep(prs, bases, allbase, h) && PagesRep(prs, mem, h) && blk < NSIZES
    ensures |prs| == NPAGEREFS && |bases| == NSIZES && |h.same| == NSIZES && bases[blk] == From(h.same[blk], 0)
    ensures forall p :: p in h.same[blk] ==> p in h.pages && p < |prs| && h.pages[p].blk == blk
    ensures forall p :: p in h.same[blk] ==>
              BlkType(prs[p].pab) == blk && (prs[p].nfree > 0 <==> h.pages[p].free != [])
    ensures forall k :: 0 <= k < |h.same[blk]| ==> LinkedAt(prs, Same, h.same[blk], k)
  {
    var s := h.same[blk];
    SizeListMembers(h, blk);
    assert Chained(prs, Same, bases[blk], s);
    hide HeapInv, Chained, ChainsRep, PageRep, PageAddr, BlkType;
    forall p | p in s ensures p < |prs| && BlkType(prs[p].pab) == blk && (prs[p].nfree > 0 <==> h.pages[p].free != []) {
      RefFacts(prs[p], mem, h.pages[p]);
    }
  }

  lemma SizeListMembers(h: Heap, blk: nat)
    requires HeapInv(h) && blk < NSIZES
    ensures |h.same| == NSIZES
    ensures forall p :: p in h.same[blk] ==> p in h.pages && h.pages[p].blk == blk
  {
    hide PagesOk, OwnersOk, NoDup;
  }

  lemma RefFacts(r: Ref, mem: map<nat, nat>, pg: Page)
    requires pg.blk < NSIZES && PageRep(r, mem, pg)
    ensures BlkType(r.pab) == pg.blk && PageAddr(r.pab) == pg.pn * PAGE_SIZE && r.nfree == |pg.free|
  {
    PabFields(pg.pn, pg.blk);
  }
}
