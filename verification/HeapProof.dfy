/**
 The transitions of the allocator keep its invariant, and live blocks never overlap.
 */
module HeapProof {
  import opened HeapSpec

  lemma MulLess(i: nat, j: nat, s: nat)
    requires i < j
    ensures i * s + s <= j * s
  {
    assert (j - i - 1) * s >= 0;
    assert j * s == i * s + s + (j - i - 1) * s;
  }

  // ----- counting -----

  ghost function Range(n: nat): (r: set<nat>)
    ensures forall i: nat :: i in r <==> i < n
  {
    if n == 0 then {} else Range(n - 1) + {n - 1}
  }

  lemma {:induction false} RangeSize(n: nat)
    ensures |Range(n)| == n
  {
    if n == 0 {
      assert Range(0) == {};
    } else {
      RangeSize(n - 1);
      assert Range(n) == Range(n - 1) + {n - 1};
    }
  }

  ghost function Elements<T>(s: seq<T>): set<T> {
    set x | x in s
  }

  lemma {:induction false} NoDupSize<T>(s: seq<T>)
    requires NoDup(s)
    ensures |Elements(s)| == |s|
  {
    if s == [] {
      assert Elements(s) == {};
    } else {
      NoDupSize(s[1..]);
      assert s == [s[0]] + s[1..];
      assert Elements(s) == {s[0]} + Elements(s[1..]);
      assert s[0] !in s[1..];
    }
  }

  /** Conservation: the free and the used blocks of a page add up to the blocks that fit in it. */
  /** Taking and giving back undo each other: the block freed last is the next to be allocated from its page. */
  lemma TakeUndoesGive(h: Heap, p: PageRef, i: nat)
    requires p in h.pages && PageOk(h.pages[p]) && i in h.pages[p].used
    ensures Give(h, p, i).pages[p].free != [] && Give(h, p, i).pages[p].free[0] == i && Take(Give(h, p, i), p) == h
  {
    assert h.pages[p].used - {i} + {i} == h.pages[p].used;
    assert ([i] + h.pages[p].free)[1..] == h.pages[p].free;
    assert Take(Give(h, p, i), p).pages == h.pages;
  }

  lemma GiveUndoesTake(h: Heap, p: PageRef)
    requires p in h.pages && PageOk(h.pages[p]) && h.pages[p].free != []
    ensures Give(Take(h, p), p, h.pages[p].free[0]) == h
  {
    var pg := h.pages[p];
    assert pg.free[0] in pg.free;
    assert pg.used + {pg.free[0]} - {pg.free[0]} == pg.used;
    assert [pg.free[0]] + pg.free[1..] == pg.free;
    assert Give(Take(h, p), p, pg.free[0]).pages == h.pages;
  }

  lemma BlocksConserved(pg: Page)
    requires PageOk(pg)
    ensures |pg.free| + |pg.used| == PerPage(pg.blk)
  {
    var f := Elements(pg.free);
    NoDupSize(pg.free);
    RangeSize(PerPage(pg.blk));
    assert f + pg.used == Range(PerPage(pg.blk));
    assert f !! pg.used;
    assert |f + pg.used| == |f| + |pg.used|;
  }

  // ----- lists -----

  lemma {:induction false} WithoutFacts<T>(s: seq<T>, x: T)
    requires NoDup(s)
    ensures NoDup(Without(s, x))
    ensures forall y :: y in Without(s, x) <==> y in s && y != x
  {
    if s != [] {
      assert s == [s[0]] + s[1..];
      assert s[0] !in s[1..];
      if s[0] != x {
        WithoutFacts(s[1..], x);
        var w := Without(s[1..], x);
        forall i, j | 0 <= i < j < |[s[0]] + w| ensures ([s[0]] + w)[i] != ([s[0]] + w)[j] {
          if i == 0 { assert w[j - 1] in w; }
        }
      }
    }
  }

  lemma {:induction false} WithoutAt<T>(s: seq<T>, x: T, k: nat)
    requires NoDup(s) && k < |s| && s[k] == x
    ensures Without(s, x) == s[..k] + s[k + 1..]
  {
    if k == 0 {
    } else {
      assert s[0] != x;
      WithoutAt(s[1..], x, k - 1);
      assert [s[0]] + (s[1..][..k - 1] + s[1..][k..]) == s[..k] + s[k + 1..];
    }
  }

  lemma PrependNoDup<T>(s: seq<T>, x: T)
    requires NoDup(s) && x !in s
    ensures NoDup([x] + s)
  {
  }

  // ----- the invariant -----

  lemma TakeFromOk(pg: Page)
    requires PageOk(pg) && pg.free != []
    ensures PageOk(TakeFrom(pg)) && pg.free[0] !in pg.used
  {
    hide PerPage, Size;
    var x, rest := pg.free[0], pg.free[1..];
    assert pg.free == [x] + rest;
    DropHead(pg.free);
    forall i | i in rest ensures i < PerPage(pg.blk) {
      assert i in pg.free;
    }
    assert x in pg.free;
    forall i: nat | i < PerPage(pg.blk) ensures i in TakeFrom(pg).used <==> i !in rest {
      assert i in pg.free <==> i == x || i in rest;
    }
  }

  lemma DropHead<T>(s: seq<T>)
    requires NoDup(s) && s != []
    ensures NoDup(s[1..]) && s[0] !in s[1..]
  {
  }

  lemma GiveToOk(pg: Page, i: nat)
    requires PageOk(pg) && i in pg.used
    ensures PageOk(GiveTo(pg, i))
  {
  }

  lemma FreshPageOk(pn: nat, blk: nat)
    requires pn > 0 && blk < NSIZES
    ensures PageOk(FreshPage(pn, blk))
  {
    var pg := FreshPage(pn, blk);
    forall i: nat | i < PerPage(blk) ensures i in pg.free {
      assert pg.free[PerPage(blk) - 1 - i] == i;
    }
  }

  lemma TakeKeeps(h: Heap, p: PageRef)
    requires HeapInv(h) && p in h.pages && h.pages[p].free != []
    ensures HeapInv(Take(h, p))
    ensures h.pages[p].free[0] !in h.pages[p].used
  {
    hide PageOk;
    TakeFromOk(h.pages[p]);
  }

  lemma AddPageLists(h: Heap, p: PageRef, pn: nat, blk: nat)
    requires ListsOk(h) && p !in h.pages && p < NPAGEREFS && blk < NSIZES
    ensures ListsOk(AddPage(h, p, pn, blk))
  {
    hide PerPage, Size, Down;
    PrependNoDup(h.all, p);
    PrependNoDup(h.same[blk], p);
  }

  lemma AddPageOwners(h: Heap, p: PageRef, pn: nat, blk: nat)
    requires OwnersOk(h) && |h.same| == NSIZES && p !in h.pages && blk < NSIZES
    requires pn in h.owner ==> h.owner[pn].Held?
    ensures OwnersOk(AddPage(h, p, pn, blk))
  {
  }

  lemma AddPageKeeps(h: Heap, p: PageRef, pn: nat, blk: nat)
    requires HeapInv(h) && p !in h.pages && p < NPAGEREFS && pn > 0 && blk < NSIZES
    requires pn in h.owner ==> h.owner[pn].Held?
    ensures HeapInv(AddPage(h, p, pn, blk))
  {
    FreshPageOk(pn, blk);
    AddPageLists(h, p, pn, blk);
    AddPageOwners(h, p, pn, blk);
    assert PagesOk(AddPage(h, p, pn, blk)) by { hide PageOk, OwnersOk, Down; }
  }

  lemma GiveKeeps(h: Heap, p: PageRef, i: nat)
    requires HeapInv(h) && p in h.pages && i in h.pages[p].used
    ensures HeapInv(Give(h, p, i))
  {
    hide PageOk;
    GiveToOk(h.pages[p], i);
  }

  lemma DropLists(h: Heap, p: PageRef)
    requires ListsOk(h) && p in h.pages && h.pages[p].blk < NSIZES
    ensures ListsOk(DropPage(h, p))
  {
    hide Without, NoDup;
    var b := h.pages[p].blk;
    WithoutFacts(h.all, p);
    WithoutFacts(h.same[b], p);
    var g := DropPage(h, p);
    forall c: nat, q | c < NSIZES ensures q in g.same[c] <==> q in g.pages && g.pages[q].blk == c {
      assert q in h.same[c] <==> q in h.pages && h.pages[q].blk == c;
    }
  }

  lemma DropOwners(h: Heap, p: PageRef)
    requires OwnersOk(h) && p in h.pages && h.pages[p].blk < NSIZES && |h.same| == NSIZES
    ensures OwnersOk(DropPage(h, p))
  {
  }

  lemma DropKeeps(h: Heap, p: PageRef)
    requires HeapInv(h) && p in h.pages
    ensures h.pages[p].blk < NSIZES && HeapInv(DropPage(h, p))
  {
    assert PageOk(h.pages[p]);
    DropLists(h, p);
    DropOwners(h, p);
    assert PagesOk(DropPage(h, p));
  }

  /** A page leaves the books exactly when its last block is freed. */
  lemma FreeBlockKeeps(h: Heap, p: PageRef, i: nat)
    requires HeapInv(h) && p in h.pages && i in h.pages[p].used
    ensures HeapInv(FreeBlock(h, p, i))
    ensures p !in FreeBlock(h, p, i).pages <==> h.pages[p].used == {i}
  {
    assert PageOk(h.pages[p]) && h.pages[p].blk < NSIZES && |h.same| == NSIZES;
    hide PageOk, ListsOk, OwnersOk, PerPage;
    var g := Give(h, p, i);
    GiveKeeps(h, p, i);
    BlocksConserved(g.pages[p]);
    if |g.pages[p].free| == PerPage(h.pages[p].blk) {
      assert g.pages[p].used == {};
      DropKeeps(g, p);
    } else {
      assert g.pages[p].used != {};
    }
  }

  // ----- live blocks do not overlap -----

  /** A small block stays inside its page. */
  lemma SmallInsidePage(pg: Page, i: nat)
    requires PageOk(pg) && i < PerPage(pg.blk)
    ensures pg.pn * PAGE_SIZE <= BlockAddr(pg, i)
    ensures BlockAddr(pg, i) + Size(pg.blk) <= (pg.pn + 1) * PAGE_SIZE
  {
  }

  /** A live block occupies pages of one owner only, whose first and last page these are. */
  ghost predicate Occupies(h: Heap, b: Block, lo: nat, hi: nat, o: Owner)
    requires IsLive(h, b)
  {
    && lo < hi
    && lo * PAGE_SIZE <= Start(h, b) && Start(h, b) + Length(h, b) <= hi * PAGE_SIZE
    && (forall k :: lo <= k < hi ==> k in h.owner && h.owner[k] == o)
  }

  lemma BlockOwner(h: Heap, b: Block) returns (lo: nat, hi: nat, o: Owner)
    requires HeapInv(h) && IsLive(h, b)
    ensures Occupies(h, b, lo, hi, o)
    ensures b.Small? ==> o == Sub(b.pr)
    ensures b.Large? ==> o == Run(b.start)
  {
    match b
    case Small(p, i) =>
      SmallInsidePage(h.pages[p], i);
      lo, hi, o := h.pages[p].pn, h.pages[p].pn + 1, Sub(p);
    case Large(r) =>
      lo, hi, o := r, r + h.runs[r], Run(r);
  }

  lemma SharedPage(h: Heap, lo: nat, hi: nat, o: Owner, lo': nat, hi': nat, o': Owner)
    requires lo < hi' && lo' < hi && lo < hi && lo' < hi'
    requires forall k :: lo <= k < hi ==> k in h.owner && h.owner[k] == o
    requires forall k :: lo' <= k < hi' ==> k in h.owner && h.owner[k] == o'
    ensures o == o'
  {
    var k := if lo < lo' then lo' else lo;
    assert k in h.owner;
  }

  lemma LiveDisjoint(h: Heap, b: Block, c: Block)
    requires HeapInv(h) && IsLive(h, b) && IsLive(h, c) && b != c
    ensures Disjoint(h, b, c)
  {
    var lo, hi, o := BlockOwner(h, b);
    var lo', hi', o' := BlockOwner(h, c);
    if o != o' {
      if lo < hi' && lo' < hi {
        SharedPage(h, lo, hi, o, lo', hi', o');
      }
    } else {
      var pg := h.pages[b.pr];
      if b.idx < c.idx {
        MulLess(b.idx, c.idx, Size(pg.blk));
      } else {
        MulLess(c.idx, b.idx, Size(pg.blk));
      }
    }
  }

  /** kfree's page search never takes a large block for a subpage block: no subpage page covers its address. */
  lemma LargeIsNotSubpage(h: Heap, r: nat, p: PageRef)
    requires HeapInv(h) && r in h.runs && p in h.pages
    ensures h.pages[p].pn != r
  {
  }

  // ----- alignment and size -----

  /** Blocks are aligned to their size class. */
  lemma SmallAligned(pg: Page, i: nat)
    requires pg.blk < NSIZES
    ensures BlockAddr(pg, i) % Size(pg.blk) == 0
  {
    SizeFacts(pg.blk);
    var s := Size(pg.blk);
    assert BlockAddr(pg, i) == (pg.pn * PerPage(pg.blk) + i) * s;
    MultipleMod(pg.pn * PerPage(pg.blk) + i, s);
  }

  lemma MultipleMod(k: nat, s: nat)
    requires s > 0
    ensures (k * s) % s == 0
  {
    DivModZero(k * s, s, k);
  }

  lemma DivModZero(x: nat, s: nat, k: nat)
    requires s > 0 && x == k * s
    ensures x % s == 0
  {
    var q, r := x / s, x % s;
    assert x == q * s + r;
    if q < k {
      MulLess(q, k, s);
    } else if q > k {
      MulLess(k, q, s);
    }
  }
}
