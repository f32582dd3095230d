/**
 What the subpage allocator keeps: pages cut into equal blocks, each block free or in use, two page lists,
 and an owner for every page that alloc_kpages ever handed out.

 A page is named by its number, so its address is the number times PAGE_SIZE; a block by its index in the page.
 */
module HeapSpec {

  const PAGE_SIZE: nat := 4096
  const NSIZES: nat := 8
  const NPAGEREFS: nat := 256
  const TWO32: nat := 0x1_0000_0000
  const LARGEST_SUBPAGE_SIZE: nat := 2048

  function Size(blk: nat): (sz: nat)
    requires blk < NSIZES
    ensures sz > 0
  {
    [16, 32, 64, 128, 256, 512, 1024, 2048][blk]
  }

  function PerPage(blk: nat): nat
    requires blk < NSIZES
  {
    PAGE_SIZE / Size(blk)
  }

  lemma SizeFacts(blk: nat)
    requires blk < NSIZES
    ensures Size(blk) * PerPage(blk) == PAGE_SIZE && 2 <= PerPage(blk) <= 256 && 16 <= Size(blk) <= 2048
    ensures Size(blk) % 16 == 0
  {
  }

  type PageRef = nat

  /** A subpage page: free block indices in free-list order, and the indices in use. */
  datatype Page = Page(pn: nat, blk: nat, free: seq<nat>, used: set<nat>)

  /** Who a page from alloc_kpages belongs to. Pages are never recycled, so a page given back is leaked. */
  datatype Owner = Sub(pr: PageRef) | Run(start: nat) | Held(tid: nat) | Leaked

  datatype Heap = Heap(
    pages: map<PageRef, Page>,
    all: seq<PageRef>,
    same: seq<seq<PageRef>>,
    runs: map<nat, nat>,
    owner: map<nat, Owner>)

  function Empty(): Heap {
    Heap(map[], [], seq(NSIZES, _ => []), map[], map[])
  }

  ghost predicate NoDup<T>(s: seq<T>) {
    forall i, j :: 0 <= i < j < |s| ==> s[i] != s[j]
  }

  ghost predicate PageOk(pg: Page) {
    && pg.blk < NSIZES
    && pg.pn > 0
    && NoDup(pg.free)
    && (forall i :: i in pg.free ==> i < PerPage(pg.blk))
    && (forall i :: i in pg.used ==> i < PerPage(pg.blk))
    && (forall i: nat :: i < PerPage(pg.blk) ==> (i in pg.used <==> i !in pg.free))
  }

  /** The page lists name exactly the pages there are, each once, and each size list those of its size. */
  ghost predicate ListsOk(h: Heap) {
    && NoDup(h.all)
    && (forall p :: p in h.all <==> p in h.pages)
    && |h.same| == NSIZES
    && (forall b: nat :: b < NSIZES ==> NoDup(h.same[b]))
    && (forall b: nat, p :: b < NSIZES ==> (p in h.same[b] <==> p in h.pages && h.pages[p].blk == b))
    && (forall p :: p in h.pages ==> p < NPAGEREFS)
  }

  ghost predicate OwnersOk(h: Heap) {
    && (forall p :: p in h.pages ==> h.pages[p].pn in h.owner && h.owner[h.pages[p].pn] == Sub(p))
    && (forall r :: r in h.runs ==> r > 0 && h.runs[r] > 0)
    && (forall r, k :: r in h.runs && r <= k < r + h.runs[r] ==> k in h.owner && h.owner[k] == Run(r))
  }

  ghost predicate PagesOk(h: Heap) {
    forall p :: p in h.pages ==> PageOk(h.pages[p])
  }

  /** No page stays on the books with every block free. */
  ghost predicate NoIdlePage(h: Heap) {
    forall p :: p in h.pages ==> h.pages[p].used != {}
  }

  ghost predicate HeapInv(h: Heap) {
    PagesOk(h) && ListsOk(h) && OwnersOk(h)
  }

  // ----- live blocks -----

  function BlockAddr(pg: Page, i: nat): nat
    requires pg.blk < NSIZES
  {
    pg.pn * PAGE_SIZE + i * Size(pg.blk)
  }

  /** The address and length of a block that a caller holds: one block of a page, or a run of whole pages. */
  datatype Block = Small(pr: PageRef, idx: nat) | Large(start: nat)

  ghost predicate IsLive(h: Heap, b: Block) {
    match b
    case Small(p, i) => p in h.pages && i in h.pages[p].used && h.pages[p].blk < NSIZES
    case Large(r) => r in h.runs
  }

  ghost function Start(h: Heap, b: Block): nat
    requires IsLive(h, b)
  {
    match b
    case Small(p, i) => BlockAddr(h.pages[p], i)
    case Large(r) => r * PAGE_SIZE
  }

  ghost function Length(h: Heap, b: Block): nat
    requires IsLive(h, b)
  {
    match b
    case Small(p, i) => Size(h.pages[p].blk)
    case Large(r) => h.runs[r] * PAGE_SIZE
  }

  ghost predicate Disjoint(h: Heap, b: Block, c: Block)
    requires IsLive(h, b) && IsLive(h, c)
  {
    Start(h, b) + Length(h, b) <= Start(h, c) || Start(h, c) + Length(h, c) <= Start(h, b)
  }

  // ----- the transitions of the critical sections -----

  function TakeFrom(pg: Page): Page
    requires pg.free != []
  {
    pg.(free := pg.free[1..], used := pg.used + {pg.free[0]})
  }

  function GiveTo(pg: Page, i: nat): Page {
    pg.(free := [i] + pg.free, used := pg.used - {i})
  }

  function FreshPage(pn: nat, blk: nat): Page
    requires blk < NSIZES
  {
    Page(pn, blk, Down(PerPage(blk)), {})
  }

  /** doalloc: the head of page p's free list goes into use. */
  function Take(h: Heap, p: PageRef): Heap
    requires p in h.pages && h.pages[p].free != []
  {
    h.(pages := h.pages[p := TakeFrom(h.pages[p])])
  }

  /** Indices n-1, ..., 1, 0: the order in which a fresh page's free list is threaded. */
  function Down(n: nat): (s: seq<nat>)
    ensures |s| == n && forall k :: 0 <= k < n ==> s[k] == n - 1 - k
  {
    seq(n, k requires 0 <= k < n => n - 1 - k)
  }

  /** A fresh page, entirely free, at the front of both lists. */
  function AddPage(h: Heap, p: PageRef, pn: nat, blk: nat): Heap
    requires blk < NSIZES && |h.same| == NSIZES
  {
    h.(pages := h.pages[p := FreshPage(pn, blk)],
       all := [p] + h.all,
       same := h.same[blk := [p] + h.same[blk]],
       owner := h.owner[pn := Sub(p)])
  }

  /** The block goes back to the front of its page's free list. */
  function Give(h: Heap, p: PageRef, i: nat): Heap
    requires p in h.pages
  {
    h.(pages := h.pages[p := GiveTo(h.pages[p], i)])
  }

  /** s without its first x. */
  function Without<T(==)>(s: seq<T>, x: T): seq<T> {
    if s == [] then [] else if s[0] == x then s[1..] else [s[0]] + Without(s[1..], x)
  }

  /** remove_lists and freepageref: page p is off the books and its memory is leaked. */
  function DropPage(h: Heap, p: PageRef): Heap
    requires p in h.pages && h.pages[p].blk < NSIZES && |h.same| == NSIZES
  {
    var pg := h.pages[p];
    h.(pages := h.pages - {p},
       all := Without(h.all, p),
       same := h.same[pg.blk := Without(h.same[pg.blk], p)],
       owner := h.owner[pg.pn := Leaked])
  }

  /** subpage_kfree of a block of page p. */
  function FreeBlock(h: Heap, p: PageRef, i: nat): Heap
    requires p in h.pages && h.pages[p].blk < NSIZES && |h.same| == NSIZES
  {
    var g := Give(h, p, i);
    if |g.pages[p].free| == PerPage(h.pages[p].blk) then DropPage(g, p) else g
  }
}
