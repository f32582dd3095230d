/**
 Runs of kmalloc and kfree by any number of threads. Each critical section under kmalloc_spinlock is one step;
 between looking for a page and installing a fresh one a thread holds no lock, so other threads' steps come between.
 alloc_kpages is assumed to hand out pages it never handed out before.
 */
module HeapRuns {
  import opened Common
  import opened HeapSpec
  import opened HeapProof

  /** Where a thread is inside kmalloc of sz bytes. */
  datatype Phase = Idle | NeedPage(sz: nat) | HavePage(sz: nat, pn: nat)

  datatype Sys = Sys(h: Heap, phase: map<nat, Phase>)

  datatype Label =
    | AllocHit(t: nat, sz: nat, b: Block)
    | AllocMiss(t: nat, sz: nat)
    | GetPage(t: nat, pn: nat)
    | GetPageFail(t: nat)
    | AllocFresh(t: nat, sz: nat, b: Block)
    | AllocFreshFail(t: nat)
    | AllocLarge(t: nat, sz: nat, b: Block)
    | Free(t: nat, b: Block)

  function PhaseOf(s: Sys, t: nat): Phase {
    if t in s.phase then s.phase[t] else Idle
  }

  /** blocktype: the first size class that is large enough. */
  function BlockType(sz: nat): (b: nat)
    requires sz <= LARGEST_SUBPAGE_SIZE
    ensures b < NSIZES && sz <= Size(b)
    ensures forall c: nat :: c < b ==> Size(c) < sz
  {
    if sz <= 16 then 0 else if sz <= 32 then 1 else if sz <= 64 then 2 else if sz <= 128 then 3
    else if sz <= 256 then 4 else if sz <= 512 then 5 else if sz <= 1024 then 6 else 7
  }

  /** The number of pages that kmalloc asks for; the sum is done in 32 bits. */
  function NPages(sz: nat): nat {
    (sz + PAGE_SIZE - 1) % TWO32 / PAGE_SIZE
  }

  /** A large request gets enough pages if and only if rounding it up does not wrap around. */
  lemma LargeEnough(sz: nat)
    requires LARGEST_SUBPAGE_SIZE <= sz < TWO32
    ensures NPages(sz) * PAGE_SIZE >= sz <==> sz + PAGE_SIZE - 1 < TWO32
  {
  }

  /** And no page more than it needs. */
  lemma NoPageTooMany(sz: nat)
    requires 0 < sz && sz + PAGE_SIZE - 1 < TWO32
    ensures (NPages(sz) - 1) * PAGE_SIZE < sz
  {
  }

  /** Every request that does wrap asks alloc_kpages for no pages at all. */
  lemma HugeRequestGetsNothing(sz: nat)
    requires sz < TWO32 && sz + PAGE_SIZE - 1 >= TWO32
    ensures NPages(sz) == 0
  {
  }

  /** The first page of a size list with a free block. */
  function FirstFit(h: Heap, s: seq<PageRef>): (r: Option<PageRef>)
    requires forall p :: p in s ==> p in h.pages
    ensures r.Some? ==> r.value in s && h.pages[r.value].free != []
    ensures r.None? <==> forall p :: p in s ==> h.pages[p].free == []
  {
    if s == [] then None else if h.pages[s[0]].free != [] then Some(s[0]) else FirstFit(h, s[1..])
  }

  /** allocpageref: the lowest descriptor not in use. */
  ghost predicate IsLowestFree(h: Heap, p: PageRef) {
    p < NPAGEREFS && p !in h.pages && forall q: nat :: q < p ==> q in h.pages
  }

  ghost predicate AllInUse(h: Heap) {
    forall q: nat :: q < NPAGEREFS ==> q in h.pages
  }

  function Assign(owner: map<nat, Owner>, r: nat, n: nat, o: Owner): (m: map<nat, Owner>)
    ensures forall k :: k in m <==> k in owner || r <= k < r + n
    ensures forall k :: k in m ==> m[k] == if r <= k < r + n then o else owner[k]
  {
    if n == 0 then owner else Assign(owner, r, n - 1, o)[r + n - 1 := o]
  }

  /** A thread that got a page from alloc_kpages is its only owner until it installs it. */
  ghost predicate PhasesOk(owner: map<nat, Owner>, phase: map<nat, Phase>) {
    && (forall t :: t in phase && phase[t].NeedPage? ==> phase[t].sz < LARGEST_SUBPAGE_SIZE)
    && (forall t :: t in phase && phase[t].HavePage? ==>
          && phase[t].sz < LARGEST_SUBPAGE_SIZE
          && phase[t].pn > 0
          && phase[t].pn in owner
          && owner[phase[t].pn] == Held(t))
  }

  ghost predicate SysInv(s: Sys) {
    HeapInv(s.h) && NoIdlePage(s.h) && PhasesOk(s.h.owner, s.phase)
  }

  /** alloc_kpages gives the pages r .. r+n to a large allocation. */
  function AddRun(h: Heap, r: nat, n: nat): Heap {
    h.(runs := h.runs[r := n], owner := Assign(h.owner, r, n, Owner.Run(r)))
  }

  /** free_kpages of a large allocation, which leaks its pages. */
  function DropRun(h: Heap, r: nat): Heap
    requires r in h.runs
  {
    h.(runs := h.runs - {r}, owner := Assign(h.owner, r, h.runs[r], Leaked))
  }

  ghost predicate StepHit(s: Sys, t: nat, sz: nat, b: Block, s': Sys)
    requires SysInv(s)
  {
    && PhaseOf(s, t).Idle? && sz < LARGEST_SUBPAGE_SIZE
    && var fit := FirstFit(s.h, s.h.same[BlockType(sz)]);
       && fit.Some?
       && b == Small(fit.value, s.h.pages[fit.value].free[0])
       && s' == s.(h := Take(s.h, fit.value))
  }

  ghost predicate StepMiss(s: Sys, t: nat, sz: nat, s': Sys)
    requires SysInv(s)
  {
    && PhaseOf(s, t).Idle? && sz < LARGEST_SUBPAGE_SIZE
    && FirstFit(s.h, s.h.same[BlockType(sz)]).None?
    && s' == s.(phase := s.phase[t := NeedPage(sz)])
  }

  ghost predicate StepGetPage(s: Sys, t: nat, pn: nat, s': Sys) {
    && PhaseOf(s, t).NeedPage? && pn > 0 && pn !in s.h.owner
    && s' == Sys(s.h.(owner := s.h.owner[pn := Held(t)]), s.phase[t := HavePage(PhaseOf(s, t).sz, pn)])
  }

  ghost predicate StepFresh(s: Sys, t: nat, sz: nat, b: Block, s': Sys)
    requires SysInv(s)
  {
    && PhaseOf(s, t).HavePage? && sz == PhaseOf(s, t).sz && b.Small? && IsLowestFree(s.h, b.pr)
    && var g := AddPage(s.h, b.pr, PhaseOf(s, t).pn, BlockType(sz));
       && g.pages[b.pr].free != []
       && b.idx == g.pages[b.pr].free[0]
       && s' == Sys(Take(g, b.pr), s.phase[t := Idle])
  }

  ghost predicate StepFreshFail(s: Sys, t: nat, s': Sys) {
    && PhaseOf(s, t).HavePage? && AllInUse(s.h)
    && s' == Sys(s.h.(owner := s.h.owner[PhaseOf(s, t).pn := Leaked]), s.phase[t := Idle])
  }

  /** A request of a page's worth or more; one that asks for no pages gets an address and no memory. */
  ghost predicate StepLarge(s: Sys, t: nat, sz: nat, b: Block, s': Sys) {
    && PhaseOf(s, t).Idle? && LARGEST_SUBPAGE_SIZE <= sz < TWO32
    && b.Large? && b.start > 0
    && (forall k :: b.start <= k < b.start + NPages(sz) ==> k !in s.h.owner)
    && s' == if NPages(sz) == 0 then s else s.(h := AddRun(s.h, b.start, NPages(sz)))
  }

  ghost predicate StepFree(s: Sys, t: nat, b: Block, s': Sys)
    requires SysInv(s)
  {
    && PhaseOf(s, t).Idle? && IsLive(s.h, b)
    && match b
       case Small(p, i) => s' == s.(h := FreeBlock(s.h, p, i))
       case Large(r) => s' == s.(h := DropRun(s.h, r))
  }

  ghost predicate Step(s: Sys, l: Label, s': Sys)
    requires SysInv(s)
  {
    match l
    case AllocHit(t, sz, b) => StepHit(s, t, sz, b, s')
    case AllocMiss(t, sz) => StepMiss(s, t, sz, s')
    case GetPage(t, pn) => StepGetPage(s, t, pn, s')
    case GetPageFail(t) => PhaseOf(s, t).NeedPage? && s' == s.(phase := s.phase[t := Idle])
    case AllocFresh(t, sz, b) => StepFresh(s, t, sz, b, s')
    case AllocFreshFail(t) => StepFreshFail(s, t, s')
    case AllocLarge(t, sz, b) => StepLarge(s, t, sz, b, s')
    case Free(t, b) => StepFree(s, t, b, s')
  }

  /** Exactly the given blocks come and go; every other block keeps its place and length. */
  ghost predicate LiveChange(h: Heap, h': Heap, added: Option<Block>, removed: Option<Block>) {
    forall c :: (IsLive(h', c) <==> (IsLive(h, c) && removed != Some(c)) || added == Some(c))
             && (IsLive(h, c) && IsLive(h', c) && added != Some(c) ==>
                   Start(h', c) == Start(h, c) && Length(h', c) == Length(h, c))
  }

  /** A returned block is big enough, aligned, new, and apart from every block that was live. */
  ghost predicate GoodBlock(h: Heap, h': Heap, sz: nat, b: Block) {
    && IsLive(h', b) && !IsLive(h, b)
    && Length(h', b) >= sz
    && (b.Small? ==> Start(h', b) % Length(h', b) == 0)
    && (b.Large? ==> Start(h', b) % PAGE_SIZE == 0)
    && (forall c :: IsLive(h, c) && IsLive(h', c) ==> Disjoint(h', b, c))
  }

  /** A returned block is no bigger than it has to be: of the smallest class that fits, or with no page to spare. */
  ghost predicate Snug(h: Heap, sz: nat, b: Block) {
    && IsLive(h, b)
    && (b.Small? ==> forall c: nat :: c < NSIZES && sz <= Size(c) ==> Length(h, b) <= Size(c))
    && (b.Large? ==> Length(h, b) < sz + PAGE_SIZE)
  }

  ghost predicate Safe(s: Sys, l: Label, s': Sys) {
    match l
    case AllocHit(_, sz, b) =>
      LiveChange(s.h, s'.h, Some(b), None) && GoodBlock(s.h, s'.h, sz, b) && Snug(s'.h, sz, b)
    case AllocFresh(_, sz, b) =>
      LiveChange(s.h, s'.h, Some(b), None) && GoodBlock(s.h, s'.h, sz, b) && Snug(s'.h, sz, b)
    case AllocLarge(_, sz, b) =>
      var fits := sz + PAGE_SIZE - 1 < TWO32;
      && LiveChange(s.h, s'.h, if fits then Some(b) else None, None)
      && (GoodBlock(s.h, s'.h, sz, b) <==> fits) && (fits ==> Snug(s'.h, sz, b))
    case Free(_, b) => LiveChange(s.h, s'.h, None, Some(b))
    case _ => LiveChange(s.h, s'.h, None, None)
  }

  // ----- each step -----

  lemma TakeLive(h: Heap, p: PageRef)
    requires HeapInv(h) && p in h.pages && h.pages[p].free != []
    ensures LiveChange(h, Take(h, p), Some(Small(p, h.pages[p].free[0])), None)
  {
  }

  lemma AddPageLive(h: Heap, p: PageRef, pn: nat, blk: nat)
    requires p !in h.pages && blk < NSIZES && |h.same| == NSIZES
    ensures LiveChange(h, AddPage(h, p, pn, blk), None, None)
  {
  }

  lemma GiveLive(h: Heap, p: PageRef, i: nat)
    requires p in h.pages && h.pages[p].blk < NSIZES && i in h.pages[p].used
    ensures LiveChange(h, Give(h, p, i), None, Some(Small(p, i)))
  {
  }

  lemma DropLive(h: Heap, p: PageRef)
    requires p in h.pages && h.pages[p].blk < NSIZES && h.pages[p].used == {} && |h.same| == NSIZES
    ensures LiveChange(h, DropPage(h, p), None, None)
  {
  }

  lemma FreeBlockLive(h: Heap, p: PageRef, i: nat)
    requires HeapInv(h) && p in h.pages && i in h.pages[p].used
    ensures h.pages[p].blk < NSIZES
    ensures LiveChange(h, FreeBlock(h, p, i), None, Some(Small(p, i)))
  {
    assert PageOk(h.pages[p]);
    FreeBlockKeeps(h, p, i);
    GiveLive(h, p, i);
    hide PageOk, LiveChange, PerPage, HeapInv;
    var g := Give(h, p, i);
    if p !in FreeBlock(h, p, i).pages {
      assert g.pages[p].used == {};
      DropLive(g, p);
      GoneThen(h, g, DropPage(g, p), Small(p, i));
    }
  }

  lemma GoneThen(h: Heap, g: Heap, h': Heap, b: Block)
    requires LiveChange(h, g, None, Some(b)) && LiveChange(g, h', None, None)
    ensures LiveChange(h, h', None, Some(b))
  {
  }

  /** Two changes in a row, when only the second adds a block. */
  lemma LiveThen(h: Heap, g: Heap, h': Heap, b: Block)
    requires LiveChange(h, g, None, None) && LiveChange(g, h', Some(b), None)
    ensures LiveChange(h, h', Some(b), None)
  {
  }

  lemma BlockIsGood(h: Heap, h': Heap, sz: nat, b: Block)
    requires HeapInv(h') && LiveChange(h, h', Some(b), None) && !IsLive(h, b)
    requires IsLive(h', b) && Length(h', b) >= sz
    ensures GoodBlock(h, h', sz, b)
  {
    hide HeapInv;
    forall c | IsLive(h, c) && IsLive(h', c) ensures Disjoint(h', b, c) {
      LiveDisjoint(h', b, c);
    }
    match b
    case Small(p, i) => SmallAligned(h'.pages[p], i);
    case Large(r) => MultipleMod(r, PAGE_SIZE);
  }

  /** Taking the first free block of a page whose size class is large enough. */
  lemma TakeGood(h: Heap, p: PageRef, sz: nat)
    requires HeapInv(h) && p in h.pages && h.pages[p].free != [] && h.pages[p].blk < NSIZES
          && sz <= Size(h.pages[p].blk)
    ensures HeapInv(Take(h, p))
    ensures var b := Small(p, h.pages[p].free[0]);
            LiveChange(h, Take(h, p), Some(b), None) && GoodBlock(h, Take(h, p), sz, b)
  {
    TakeKeeps(h, p);
    TakeLive(h, p);
    TakeFresh(h, p);
    hide HeapInv, LiveChange, Take, Size, IsLive, Length, GoodBlock;
    BlockIsGood(h, Take(h, p), sz, Small(p, h.pages[p].free[0]));
  }

  lemma TakeFresh(h: Heap, p: PageRef)
    requires HeapInv(h) && p in h.pages && h.pages[p].free != []
    ensures var b := Small(p, h.pages[p].free[0]);
            !IsLive(h, b) && IsLive(Take(h, p), b) && h.pages[p].blk < NSIZES
                && Length(Take(h, p), b) == Size(h.pages[p].blk)
  {
  }

  /** A block of the class that BlockType chooses is of the smallest class that fits. */
  lemma TakeSnug(h: Heap, p: PageRef, sz: nat)
    requires p in h.pages && h.pages[p].free != [] && sz <= LARGEST_SUBPAGE_SIZE && h.pages[p].blk == BlockType(sz)
    ensures Snug(Take(h, p), sz, Small(p, h.pages[p].free[0]))
  {
    forall c: nat | c < NSIZES && sz <= Size(c) ensures Size(BlockType(sz)) <= Size(c) {}
  }

  lemma TakeNoIdle(h: Heap, p: PageRef)
    requires p in h.pages && h.pages[p].free != []
    requires forall q :: q in h.pages && q != p ==> h.pages[q].used != {}
    ensures NoIdlePage(Take(h, p))
  {
  }

  lemma HitSafe(s: Sys, t: nat, sz: nat, b: Block, s': Sys)
    requires SysInv(s) && StepHit(s, t, sz, b, s')
    ensures SysInv(s') && LiveChange(s.h, s'.h, Some(b), None) && GoodBlock(s.h, s'.h, sz, b) && Snug(s'.h, sz, b)
  {
    HitBlock(s, t, sz, b, s');
    TakeSnug(s.h, b.pr, sz);
    hide HeapInv, LiveChange, FirstFit, BlockType, PhasesOk, GoodBlock, Size, Snug;
    TakeGood(s.h, b.pr, sz);
    TakeNoIdle(s.h, b.pr);
  }

  /** The page that the search stops at is of the size class asked for. */
  lemma HitBlock(s: Sys, t: nat, sz: nat, b: Block, s': Sys)
    requires SysInv(s) && StepHit(s, t, sz, b, s')
    ensures b.pr in s.h.pages && s.h.pages[b.pr].blk == BlockType(sz)
  {
  }

  lemma FreshSafe(s: Sys, t: nat, sz: nat, b: Block, s': Sys)
    requires SysInv(s) && StepFresh(s, t, sz, b, s')
    ensures SysInv(s') && LiveChange(s.h, s'.h, Some(b), None) && GoodBlock(s.h, s'.h, sz, b) && Snug(s'.h, sz, b)
  {
    var h, p, blk := s.h, b.pr, BlockType(sz);
    var pn := PhaseOf(s, t).pn;
    var g := AddPage(h, p, pn, blk);
    AddPageKeeps(h, p, pn, blk);
    AddPageLive(h, p, pn, blk);
    PhasesKept(h.owner, s.phase, t, Sub(p));
    TakeSnug(g, p, sz);
    hide Snug, HeapInv, LiveChange, BlockType, Down, PerPage, PhasesOk, Size, GoodBlock, IsLive, Start, Length,
         Disjoint;
    TakeGood(g, p, sz);
    TakeNoIdle(g, p);
    GoodThen(h, g, s'.h, sz, b);
    LiveThen(h, g, s'.h, b);
  }

  /** A block that is good for the heap with a page added is good for the heap before. */
  lemma GoodThen(h: Heap, g: Heap, h': Heap, sz: nat, b: Block)
    requires LiveChange(h, g, None, None) && GoodBlock(g, h', sz, b)
    ensures GoodBlock(h, h', sz, b)
  {
  }

  /** Changing the owner of the page that thread t alone holds leaves the other threads' pages alone. */
  lemma PhasesKept(owner: map<nat, Owner>, phase: map<nat, Phase>, t: nat, o: Owner)
    requires PhasesOk(owner, phase) && t in phase && phase[t].HavePage?
    ensures PhasesOk(owner[phase[t].pn := o], phase[t := Idle])
  {
  }

  lemma FreshFailSafe(s: Sys, t: nat, s': Sys)
    requires SysInv(s) && StepFreshFail(s, t, s')
    ensures SysInv(s') && LiveChange(s.h, s'.h, None, None)
  {
    PhasesKept(s.h.owner, s.phase, t, Leaked);
    OwnerAway(s.h, PhaseOf(s, t).pn, Leaked);
    hide PhasesOk, PagesOk, ListsOk, OwnersOk;
  }

  /** The owner of a page that is neither a subpage page nor part of a run does not matter to the heap. */
  lemma OwnerAway(h: Heap, pn: nat, o: Owner)
    requires HeapInv(h) && (pn in h.owner ==> h.owner[pn].Held?)
    ensures HeapInv(h.(owner := h.owner[pn := o]))
  {
  }

  lemma GetPageSafe(s: Sys, t: nat, pn: nat, s': Sys)
    requires SysInv(s) && StepGetPage(s, t, pn, s')
    ensures SysInv(s') && LiveChange(s.h, s'.h, None, None)
  {
    OwnerAway(s.h, pn, Held(t));
    hide PagesOk, ListsOk, OwnersOk;
    assert PhasesOk(s'.h.owner, s'.phase);
  }

  lemma AddRunKeeps(h: Heap, r: nat, n: nat)
    requires HeapInv(h) && r > 0 && n > 0 && forall k :: r <= k < r + n ==> k !in h.owner
    ensures HeapInv(AddRun(h, r, n)) && r !in h.runs
  {
    var g := AddRun(h, r, n);
    hide PageOk, Assign, OwnersOk;
    AddRunOwners(h, r, n);
  }

  lemma AddRunOwners(h: Heap, r: nat, n: nat)
    requires OwnersOk(h) && r > 0 && n > 0 && forall k :: r <= k < r + n ==> k !in h.owner
    ensures OwnersOk(AddRun(h, r, n)) && r !in h.runs
  {
    hide Assign;
    assert r !in h.owner;
  }

  /** A large request gets a good block if and only if its size, rounded up, stays below 4 GB. */
  lemma LargeSafe(s: Sys, t: nat, sz: nat, b: Block, s': Sys)
    requires SysInv(s) && StepLarge(s, t, sz, b, s')
    ensures SysInv(s')
    ensures var fits := sz + PAGE_SIZE - 1 < TWO32;
            && LiveChange(s.h, s'.h, if fits then Some(b) else None, None)
            && (GoodBlock(s.h, s'.h, sz, b) <==> fits) && (fits ==> Snug(s'.h, sz, b))
  {
    var h, r, n := s.h, b.start, NPages(sz);
    LargeEnough(sz);
    if sz + PAGE_SIZE - 1 < TWO32 { NoPageTooMany(sz); }
    if sz + PAGE_SIZE - 1 >= TWO32 {
      HugeRequestGetsNothing(sz);
      hide HeapInv, PhasesOk;
    } else {
      hide NPages, Assign, HeapInv, PhasesOk, LiveChange, GoodBlock;
      AddRunKeeps(h, r, n);
      AddRunLive(h, r, n);
      BlockIsGood(h, s'.h, sz, b);
      AddRunPhases(h, s.phase, r, n);
    }
  }

  lemma AddRunLive(h: Heap, r: nat, n: nat)
    requires r !in h.runs
    ensures LiveChange(h, AddRun(h, r, n), Some(Large(r)), None)
  {
  }

  lemma AddRunPhases(h: Heap, phase: map<nat, Phase>, r: nat, n: nat)
    requires PhasesOk(h.owner, phase) && forall k :: r <= k < r + n ==> k !in h.owner
    ensures PhasesOk(AddRun(h, r, n).owner, phase)
  {
  }

  lemma DropRunKeeps(h: Heap, r: nat)
    requires HeapInv(h) && r in h.runs
    ensures HeapInv(DropRun(h, r)) && LiveChange(h, DropRun(h, r), None, Some(Large(r)))
  {
    hide PageOk, OwnersOk, Assign, LiveChange;
    DropRunOwners(h, r);
    DropRunLive(h, r);
  }

  lemma DropRunOwners(h: Heap, r: nat)
    requires OwnersOk(h) && r in h.runs
    ensures OwnersOk(DropRun(h, r))
  {
    hide Assign;
  }

  lemma DropRunLive(h: Heap, r: nat)
    requires r in h.runs
    ensures LiveChange(h, DropRun(h, r), None, Some(Large(r)))
  {
  }

  lemma DropRunPhases(h: Heap, phase: map<nat, Phase>, r: nat)
    requires OwnersOk(h) && PhasesOk(h.owner, phase) && r in h.runs
    ensures PhasesOk(DropRun(h, r).owner, phase)
  {
  }

  lemma FreeBlockPhases(h: Heap, phase: map<nat, Phase>, p: PageRef, i: nat)
    requires HeapInv(h) && PhasesOk(h.owner, phase) && p in h.pages
    ensures h.pages[p].blk < NSIZES && PhasesOk(FreeBlock(h, p, i).owner, phase)
  {
  }

  lemma FreeSmallSafe(s: Sys, p: PageRef, i: nat)
    requires SysInv(s) && IsLive(s.h, Small(p, i))
    ensures SysInv(s.(h := FreeBlock(s.h, p, i)))
    ensures LiveChange(s.h, FreeBlock(s.h, p, i), None, Some(Small(p, i)))
  {
    hide LiveChange, PerPage, Without, PhasesOk, PagesOk, ListsOk, OwnersOk, DropPage;
    FreeBlockKeeps(s.h, p, i);
    FreeBlockLive(s.h, p, i);
    FreeBlockPhases(s.h, s.phase, p, i);
    FreeLeavesNoIdle(s.h, p, i);
  }

  lemma FreeLeavesNoIdle(h: Heap, p: PageRef, i: nat)
    requires HeapInv(h) && NoIdlePage(h) && p in h.pages && i in h.pages[p].used && h.pages[p].blk < NSIZES
    ensures NoIdlePage(FreeBlock(h, p, i))
  {
    FreeBlockKeeps(h, p, i);
    hide PerPage, Without, PageOk, ListsOk, OwnersOk;
    if p in FreeBlock(h, p, i).pages {
      assert FreeBlock(h, p, i).pages[p].used == h.pages[p].used - {i} != {};
    }
  }

  lemma FreeSafe(s: Sys, t: nat, b: Block, s': Sys)
    requires SysInv(s) && StepFree(s, t, b, s')
    ensures SysInv(s') && LiveChange(s.h, s'.h, None, Some(b))
  {
    match b
    case Small(p, i) =>
      FreeSmallSafe(s, p, i);
    case Large(r) =>
      hide LiveChange, PhasesOk, PagesOk, ListsOk;
      DropRunKeeps(s.h, r);
      DropRunPhases(s.h, s.phase, r);
  }

  /** Every step keeps the invariant, and every block it returns is good. */
  lemma StepSafe(s: Sys, l: Label, s': Sys)
    requires SysInv(s) && Step(s, l, s')
    ensures SysInv(s') && Safe(s, l, s')
  {
    hide StepHit, StepMiss, StepGetPage, StepFresh, StepFreshFail, StepLarge, StepFree, GoodBlock, HeapInv, Snug;
    match l
    case AllocHit(t, sz, b) => HitSafe(s, t, sz, b, s');
    case AllocMiss(t, sz) => MissSafe(s, t, sz, s');
    case GetPage(t, pn) => GetPageSafe(s, t, pn, s');
    case GetPageFail(t) =>
    case AllocFresh(t, sz, b) => FreshSafe(s, t, sz, b, s');
    case AllocFreshFail(t) => FreshFailSafe(s, t, s');
    case AllocLarge(t, sz, b) => LargeSafe(s, t, sz, b, s');
    case Free(t, b) => FreeSafe(s, t, b, s');
  }

  lemma MissSafe(s: Sys, t: nat, sz: nat, s': Sys)
    requires SysInv(s) && StepMiss(s, t, sz, s')
    ensures SysInv(s') && LiveChange(s.h, s'.h, None, None)
  {
  }

  // ----- whole runs -----

  /** Steps from the empty heap. (Step is only defined on states that satisfy the invariant; all of them do.) */
  ghost predicate IsRun(states: seq<Sys>, labels: seq<Label>) {
    && |states| == |labels| + 1
    && states[0] == Sys(Empty(), map[])
    && forall i :: 0 <= i < |labels| ==> SysInv(states[i]) ==> Step(states[i], labels[i], states[i + 1])
  }

  lemma {:induction false} RunInv(states: seq<Sys>, labels: seq<Label>, i: nat)
    requires IsRun(states, labels) && i < |states|
    ensures SysInv(states[i])
  {
    if i == 0 {
      assert forall b: nat :: b < NSIZES ==> states[0].h.same[b] == [];
    } else {
      RunInv(states, labels, i - 1);
      StepSafe(states[i - 1], labels[i - 1], states[i]);
    }
  }

  /**
   In every run, at every moment, live blocks are pairwise disjoint, every page's free and used blocks add up to
   the page, no fully free page stays on the books, and every step returns only good blocks.
   */
  lemma RunSafe(states: seq<Sys>, labels: seq<Label>, i: nat)
    requires IsRun(states, labels) && i < |states|
    ensures forall b, c :: IsLive(states[i].h, b) && IsLive(states[i].h, c) && b != c ==> Disjoint(states[i].h, b, c)
    ensures forall p :: p in states[i].h.pages ==>
              var pg := states[i].h.pages[p];
              pg.blk < NSIZES && |pg.free| + |pg.used| == PerPage(pg.blk) && |pg.free| < PerPage(pg.blk)
    ensures i < |labels| ==> Safe(states[i], labels[i], states[i + 1])
  {
    RunInv(states, labels, i);
    var h := states[i].h;
    forall b, c | IsLive(h, b) && IsLive(h, c) && b != c ensures Disjoint(h, b, c) {
      LiveDisjoint(h, b, c);
    }
    forall p | p in h.pages
      ensures var pg := h.pages[p];
              pg.blk < NSIZES && |pg.free| + |pg.used| == PerPage(pg.blk) && |pg.free| < PerPage(pg.blk)
    {
      BlocksConserved(h.pages[p]);
    }
    if i < |labels| {
      StepSafe(states[i], labels[i], states[i + 1]);
    }
  }

  /**
   * In every run, kmalloc goes by its policy: requests below the largest class come from pages of
   * the class that fits, and a page is asked for only when none of those has a free block; the page
   * used is the first of its list that has one, and the block the first of the page. A fresh page
   * takes the lowest free descriptor, and is leaked only when all are in use. A thread is in one
   * request at a time.
   */
  lemma RunPolicy(states: seq<Sys>, labels: seq<Label>, i: nat)
    requires IsRun(states, labels) && i < |labels|
    ensures SysInv(states[i]) && Policy(states[i], labels[i], states[i + 1])
  {
    RunInv(states, labels, i);
    StepPolicy(states[i], labels[i], states[i + 1]);
  }

  ghost predicate Policy(s: Sys, l: Label, s': Sys)
    requires SysInv(s)
  {
    match l
    case AllocHit(t, sz, b) =>
      && PhaseOf(s, t).Idle? && sz < LARGEST_SUBPAGE_SIZE && b.Small? && b.pr in s.h.pages
      && s.h.pages[b.pr].blk == BlockType(sz) && [b.idx] <= s.h.pages[b.pr].free
      && exists k: nat :: k < |s.h.same[BlockType(sz)]| && s.h.same[BlockType(sz)][k] == b.pr
                          && NoneBefore(s.h, BlockType(sz), k)
    case AllocMiss(t, sz) =>
      && PhaseOf(s, t).Idle? && sz < LARGEST_SUBPAGE_SIZE && PhaseOf(s', t) == NeedPage(sz)
      && forall p :: p in s.h.pages && s.h.pages[p].blk == BlockType(sz) ==> s.h.pages[p].free == []
    case GetPage(t, pn) =>
      PhaseOf(s, t).NeedPage? && PhaseOf(s', t) == HavePage(PhaseOf(s, t).sz, pn) && pn !in s.h.owner
    case GetPageFail(t) => PhaseOf(s, t).NeedPage? && PhaseOf(s', t).Idle? && s'.h == s.h
    case AllocFresh(t, sz, b) =>
      && PhaseOf(s, t).HavePage? && PhaseOf(s', t).Idle? && sz == PhaseOf(s, t).sz && b.Small?
      && b.pr < NPAGEREFS && b.pr !in s.h.pages && (forall q: nat :: q < b.pr ==> q in s.h.pages)
      && b.pr in s'.h.pages && s'.h.pages[b.pr].pn == PhaseOf(s, t).pn && s'.h.pages[b.pr].used == {b.idx}
    case AllocFreshFail(t) =>
      PhaseOf(s, t).HavePage? && PhaseOf(s', t).Idle? && forall q: nat :: q < NPAGEREFS ==> q in s.h.pages
    case AllocLarge(t, sz, b) => PhaseOf(s, t).Idle? && sz >= LARGEST_SUBPAGE_SIZE
    case Free(t, b) => PhaseOf(s, t).Idle? && s'.phase == s.phase
  }

  /** No page before the k-th of a size list has a free block. */
  ghost predicate NoneBefore(h: Heap, blk: nat, k: nat) {
    blk < |h.same| && k <= |h.same[blk]|
    && forall j :: 0 <= j < k ==> h.same[blk][j] in h.pages && h.pages[h.same[blk][j]].free == []
  }

  lemma {:induction false} FirstFitAt(h: Heap, s: seq<PageRef>) returns (k: nat)
    requires (forall p :: p in s ==> p in h.pages) && FirstFit(h, s).Some?
    ensures k < |s| && s[k] == FirstFit(h, s).value
    ensures forall j :: 0 <= j < k ==> h.pages[s[j]].free == []
  {
    if h.pages[s[0]].free != [] {
      k := 0;
    } else {
      var m := FirstFitAt(h, s[1..]);
      k := m + 1;
      forall j | 0 <= j < k ensures h.pages[s[j]].free == [] { assert j > 0 ==> s[1..][j - 1] == s[j]; }
    }
  }

  lemma StepPolicy(s: Sys, l: Label, s': Sys)
    requires SysInv(s) && Step(s, l, s')
    ensures Policy(s, l, s')
  {
    match l
    case AllocHit(t, sz, b) => HitPolicy(s, t, sz, b, s');
    case AllocMiss(t, sz) => MissPolicy(s, t, sz, s');
    case AllocFresh(t, sz, b) => hide HeapInv, NoIdlePage, PhasesOk, PerPage, BlockType;
    case _ => hide HeapInv, NoIdlePage, PhasesOk, FirstFit, BlockType;
  }

  lemma HitPolicy(s: Sys, t: nat, sz: nat, b: Block, s': Sys)
    requires SysInv(s) && StepHit(s, t, sz, b, s')
    ensures Policy(s, AllocHit(t, sz, b), s')
  {
    HitBlock(s, t, sz, b, s');
    var k := FirstFitAt(s.h, s.h.same[BlockType(sz)]);
    hide FirstFit, BlockType, PageOk, OwnersOk;
    assert NoneBefore(s.h, BlockType(sz), k);
  }

  lemma MissPolicy(s: Sys, t: nat, sz: nat, s': Sys)
    requires SysInv(s) && StepMiss(s, t, sz, s')
    ensures Policy(s, AllocMiss(t, sz), s')
  {
    hide FirstFit, BlockType, PageOk, OwnersOk;
    var blk := BlockType(sz);
    assert forall p :: p in s.h.pages && s.h.pages[p].blk == blk ==> p in s.h.same[blk];
  }

  /** Every request of an idle thread is taken up: from a page, by asking for one, or with fresh whole pages. */
  lemma RequestTaken(s: Sys, t: nat, sz: nat, r: nat)
    requires SysInv(s) && PhaseOf(s, t).Idle? && sz < TWO32
    requires r > 0 && forall k :: r <= k < r + NPages(sz) ==> k !in s.h.owner
    ensures if sz < LARGEST_SUBPAGE_SIZE
            then (exists b, s' :: StepHit(s, t, sz, b, s')) || (exists s' :: StepMiss(s, t, sz, s'))
            else exists s' :: StepLarge(s, t, sz, Large(r), s')
  {
    hide HeapInv, PhasesOk, BlockType, NPages;
    if sz < LARGEST_SUBPAGE_SIZE {
      SizeLists(s.h);
      var fit := FirstFit(s.h, s.h.same[BlockType(sz)]);
      hide FirstFit;
      if fit.Some? {
        assert StepHit(s, t, sz, Small(fit.value, s.h.pages[fit.value].free[0]), s.(h := Take(s.h, fit.value)));
      } else {
        assert StepMiss(s, t, sz, s.(phase := s.phase[t := NeedPage(sz)]));
      }
    } else {
      assert StepLarge(s, t, sz, Large(r), if NPages(sz) == 0 then s else s.(h := AddRun(s.h, r, NPages(sz))));
    }
  }

  lemma SizeLists(h: Heap)
    requires HeapInv(h)
    ensures |h.same| == NSIZES && forall b: nat, p :: b < NSIZES && p in h.same[b] ==> p in h.pages
  {
  }
}
