/**
 * Demand paging (kern/vm): the page tables of each address space, allocated page by page on
 * first touch, and the TLB as a cache of their translations.
 */
module VmSpec {
  import opened Common

  const PAGE_SIZE := 4096
  const NUM_TLB := 64
  const STACKPAGES := 12
  const USERSTACK := 0x8000_0000
  const STACKBASE: nat := USERSTACK - STACKPAGES * PAGE_SIZE
  const WORD := 0x1_0000_0000

  datatype Pte = Pte(valid: bool, dirty: bool, paddr: nat)

  datatype Segment = Segment(vbase: nat, npages: nat, ptable: seq<Pte>)

  datatype Space = Space(code: Segment, data: Segment, stack: Segment, loaded: bool)

  datatype Kind = Code | Data | Stack

  /** A TLB slot: the page and frame it maps, and the bits TLBLO_DIRTY and TLBLO_VALID. */
  datatype Entry = Entry(valid: bool, vpage: nat, paddr: nat, writable: bool)

  /**
   * `owner` is the address space that was activated last; a kernel thread, which has none,
   * leaves it in place. `used` holds the frames handed out so far.
   */
  datatype State = State(spaces: map<nat, Space>, current: Option<nat>, tlb: seq<Entry>, next: nat,
      owner: Option<nat>, used: set<nat>)

  function Page(v: nat): nat { v - v % PAGE_SIZE }

  function Get(a: Space, k: Kind): Segment {
    match k case Code => a.code case Data => a.data case Stack => a.stack
  }

  function Put(a: Space, k: Kind, seg: Segment): Space {
    match k case Code => a.(code := seg) case Data => a.(data := seg) case Stack => a.(stack := seg)
  }

  // ----- translation -----

  /** The end of a segment as vm_fault computes it, in 32 bits. */
  function Top(seg: Segment): nat { (seg.vbase + seg.npages * PAGE_SIZE) % WORD }

  predicate Covers(seg: Segment, v: nat) { seg.vbase <= v < Top(seg) }

  predicate InStack(v: nat) { STACKBASE <= v < USERSTACK }

  /** Which segment vm_fault consults for page v. */
  function Which(a: Space, v: nat): Option<Kind> {
    if Covers(a.code, v) then Some(Code)
    else if Covers(a.data, v) then Some(Data)
    else if InStack(v) then Some(Stack)
    else None
  }

  function Index(seg: Segment, v: nat): int { (v - seg.vbase) / PAGE_SIZE }

  /** The frame that the page tables give for page v, once it has been touched. */
  function Translate(a: Space, v: nat): Option<nat> {
    var k := Which(a, v);
    if k.None? then None
    else
      var seg := Get(a, k.value);
      if 0 <= Index(seg, v) < |seg.ptable| && seg.ptable[Index(seg, v)].valid
      then Some(seg.ptable[Index(seg, v)].paddr) else None
  }

  // ----- operations -----

  function EmptyTable(n: nat): seq<Pte> { seq(n, _ => Pte(false, false, 0)) }

  function NewSpace(): Space {
    Space(Segment(0, 0, []), Segment(0, 0, []),
          Segment(STACKBASE, STACKPAGES, EmptyTable(STACKPAGES)), false)
  }

  datatype Region = Region(vbase: nat, npages: nat)

  /** as_define_region's rounding, in 32-bit arithmetic. */
  function Round(vaddr: nat, sz: nat): Region {
    var sz1 := (sz + vaddr % PAGE_SIZE) % WORD;
    var sz2 := Page((sz1 + PAGE_SIZE - 1) % WORD);
    Region(Page(vaddr), sz2 / PAGE_SIZE)
  }

  /** A segment for a region, with no page touched yet. */
  function SegmentOf(vaddr: nat, sz: nat): Segment {
    var r := Round(vaddr, sz);
    Segment(r.vbase, r.npages, EmptyTable(r.npages))
  }

  datatype Defined = Ok(space: Space) | TooMany | Panic

  /** Which segment the next region becomes, if it is not refused. */
  function NextKind(a: Space): Kind {
    if a.code.vbase == 0 then Code else Data
  }

  /** The first two regions become code and data; a region of no pages fails an assertion. */
  function DefineRegion(a: Space, vaddr: nat, sz: nat): Defined {
    var k := NextKind(a);
    if Get(a, k).vbase != 0 then TooMany
    else if Round(vaddr, sz).npages == 0 then Panic
    else Ok(Put(a, k, SegmentOf(vaddr, sz)))
  }

  /** The assertions at the head of vm_fault. */
  predicate Ready(a: Space) {
    && a.code.vbase != 0 && a.code.npages != 0 && a.data.vbase != 0 && a.data.npages != 0 && a.stack.vbase != 0
    && a.code.vbase % PAGE_SIZE == 0 && a.stack.vbase % PAGE_SIZE == 0
  }

  /** segment_lookup: the page's frame, taken from `frame` if the page is new. */
  function Lookup(seg: Segment, v: nat, dirty: bool, frame: nat): (Segment, nat)
    requires 0 <= Index(seg, v) < |seg.ptable|
  {
    var i := Index(seg, v);
    var pte := if dirty then seg.ptable[i].(dirty := true) else seg.ptable[i];
    if !pte.valid then (seg.(ptable := seg.ptable[i := pte.(valid := true, paddr := frame)]), frame)
    else (seg.(ptable := seg.ptable[i := pte]), pte.paddr + (v - seg.vbase) % PAGE_SIZE)
  }

  /** The first slot from i on that holds no valid entry. */
  function FreeSlot(tlb: seq<Entry>, i: nat): (r: nat)
    requires i <= |tlb|
    ensures i <= r <= |tlb| && (r < |tlb| ==> !tlb[r].valid) && forall j :: i <= j < r ==> tlb[j].valid
    decreases |tlb| - i
  {
    if i < |tlb| && tlb[i].valid then FreeSlot(tlb, i + 1) else i
  }

  predicate Full(tlb: seq<Entry>) { FreeSlot(tlb, 0) == |tlb| }

  // ----- steps -----

  predicate FreshFrame(s: State, frame: nat) {
    frame !in s.used && frame != 0 && frame % PAGE_SIZE == 0
  }

  /** A TLB miss on page v of the current address space that vm_fault resolves. */
  predicate CanFault(s: State, v: nat) {
    && v % PAGE_SIZE == 0 && s.current.Some? && s.current.value in s.spaces
    && Ready(s.spaces[s.current.value]) && Which(s.spaces[s.current.value], v).Some?
    && forall i :: 0 <= i < |s.tlb| && s.tlb[i].valid ==> s.tlb[i].vpage != v
  }

  predicate StepFault(s: State, s': State, v: nat, write: bool, frame: nat) {
    && CanFault(s, v) && FreshFrame(s, frame) && |s.tlb| == NUM_TLB && s.next < NUM_TLB
    && var id := s.current.value;
       var a := s.spaces[id];
       var k := Which(a, v).value;
       && 0 <= Index(Get(a, k), v) < |Get(a, k).ptable|
       && var (seg, paddr) := Lookup(Get(a, k), v, write, frame);
          var e := Entry(true, v, paddr, !(k == Code && a.loaded));
          var free := FreeSlot(s.tlb, 0);
          s' == s.(spaces := s.spaces[id := Put(a, k, seg)],
                   tlb := s.tlb[(if free < NUM_TLB then free else s.next) := e],
                   next := if free < NUM_TLB then s.next else (s.next + 1) % NUM_TLB,
                   used := if paddr == frame then s.used + {frame} else s.used)
  }

  function InvalidTlb(tlb: seq<Entry>): (r: seq<Entry>)
    ensures |r| == |tlb| && forall i :: 0 <= i < |r| ==> !r[i].valid && r[i].vpage >= USERSTACK
    ensures forall i, j :: 0 <= i < j < |r| ==> r[i].vpage != r[j].vpage
  {
    seq(|tlb|, i requires 0 <= i < |tlb| => Entry(false, (0x80000 + i) * PAGE_SIZE, 0, false))
  }

  predicate StepActivate(s: State, s': State, as': Option<nat>) {
    && (as'.Some? ==> as'.value in s.spaces)
    && s' == if as'.Some? then s.(current := as', owner := as', tlb := InvalidTlb(s.tlb)) else s.(current := None)
  }

  predicate StepCreate(s: State, s': State, id: nat) {
    id !in s.spaces && s' == s.(spaces := s.spaces[id := NewSpace()])
  }

  predicate StepDefine(s: State, s': State, id: nat, vaddr: nat, sz: nat) {
    && id in s.spaces && vaddr < WORD && sz < WORD && !DefineRegion(s.spaces[id], vaddr, sz).Panic?
    && var d := DefineRegion(s.spaces[id], vaddr, sz);
       s' == if d.Ok? then s.(spaces := s.spaces[id := d.space]) else s
  }

  predicate StepLoaded(s: State, s': State, id: nat) {
    id in s.spaces && s' == s.(spaces := s.spaces[id := s.spaces[id].(loaded := true)])
  }

  datatype Label =
    | Fault(v: nat, write: bool, frame: nat) | Activate(as': Option<nat>) | Create(id: nat)
    | Define(id: nat, vaddr: nat, sz: nat) | Loaded(id: nat)

  predicate Step(s: State, l: Label, s': State) {
    match l
    case Fault(v, write, frame) => StepFault(s, s', v, write, frame)
    case Activate(as') => StepActivate(s, s', as')
    case Create(id) => StepCreate(s, s', id)
    case Define(id, vaddr, sz) => StepDefine(s, s', id, vaddr, sz)
    case Loaded(id) => StepLoaded(s, s', id)
  }

  // ----- the invariant -----

  predicate SegOk(seg: Segment) {
    seg.vbase % PAGE_SIZE == 0 && seg.vbase < WORD && |seg.ptable| == seg.npages && seg.npages * PAGE_SIZE < WORD
  }

  predicate SpaceOk(a: Space) {
    && SegOk(a.code) && SegOk(a.data) && SegOk(a.stack)
    && a.stack.vbase == STACKBASE && a.stack.npages == STACKPAGES
  }

  /** The page-table entry numbered i of segment k of space id, where there is one. */
  predicate Touched(spaces: map<nat, Space>, id: nat, k: Kind, i: nat) {
    id in spaces && i < |Get(spaces[id], k).ptable| && Get(spaces[id], k).ptable[i].valid
  }

  function FrameOf(spaces: map<nat, Space>, id: nat, k: Kind, i: nat): nat
    requires Touched(spaces, id, k, i)
  {
    Get(spaces[id], k).ptable[i].paddr
  }

  /** Every frame in a page table was handed out, and to that page-table entry only. */
  ghost predicate FramesOk(spaces: map<nat, Space>, used: set<nat>) {
    && (forall id, k, i :: Touched(spaces, id, k, i) ==>
          FrameOf(spaces, id, k, i) in used && FrameOf(spaces, id, k, i) % PAGE_SIZE == 0)
    && (forall id, k, i, id', k', i' :: Touched(spaces, id, k, i) && Touched(spaces, id', k', i') ==>
          FrameOf(spaces, id, k, i) == FrameOf(spaces, id', k', i') ==> id == id' && k == k' && i == i')
  }

  /** A valid entry maps a page of the owner as its tables do; only code, once loaded, is read-only. */
  ghost predicate EntryOk(s: State, i: nat)
    requires i < |s.tlb|
  {
    s.tlb[i].valid ==>
      && s.owner.Some? && s.owner.value in s.spaces && Ready(s.spaces[s.owner.value])
      && var a := s.spaces[s.owner.value];
         && s.tlb[i].vpage % PAGE_SIZE == 0 && Translate(a, s.tlb[i].vpage) == Some(s.tlb[i].paddr)
         && (!s.tlb[i].writable ==> Which(a, s.tlb[i].vpage) == Some(Code) && a.loaded)
  }

  ghost predicate Inv(s: State) {
    && |s.tlb| == NUM_TLB && s.next < NUM_TLB
    && (forall id :: id in s.spaces ==> SpaceOk(s.spaces[id]))
    && FramesOk(s.spaces, s.used)
    && (s.current.Some? ==> s.current == s.owner && s.current.value in s.spaces)
    && (forall i :: 0 <= i < NUM_TLB ==> EntryOk(s, i))
    && (forall i, j :: 0 <= i < j < NUM_TLB && s.tlb[i].valid && s.tlb[j].valid ==> s.tlb[i].vpage != s.tlb[j].vpage)
  }
}
