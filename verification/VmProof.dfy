/** The TLB agrees with the page tables in every run of faults and activations. */
module VmProof {
  import opened Common
  import opened VmSpec

  // ----- one lookup -----

  lemma IndexOk(a: Space, k: Kind, v: nat)
    requires SpaceOk(a) && Which(a, v) == Some(k)
    ensures 0 <= Index(Get(a, k), v) < |Get(a, k).ptable| && Get(a, k).vbase <= v
  {
  }

  /** Distinct pages of a segment have distinct indices, and offset zero. */
  lemma IndexInjective(seg: Segment, v: nat, w: nat)
    requires seg.vbase % PAGE_SIZE == 0 && v % PAGE_SIZE == 0 && w % PAGE_SIZE == 0
    ensures (v - seg.vbase) % PAGE_SIZE == 0 && (Index(seg, v) == Index(seg, w) ==> v == w)
  {
  }

  /** What segment_lookup leaves: one entry touched, keeping its frame if it had one, and that frame returned. */
  lemma LookupFacts(seg: Segment, v: nat, dirty: bool, frame: nat)
    requires seg.vbase % PAGE_SIZE == 0 && v % PAGE_SIZE == 0 && 0 <= Index(seg, v) < |seg.ptable|
    ensures var (seg', paddr) := Lookup(seg, v, dirty, frame);
            var i := Index(seg, v);
            && seg' == seg.(ptable := seg.ptable[i := seg'.ptable[i]])
            && |seg'.ptable| == |seg.ptable| && seg'.ptable[i].valid && seg'.ptable[i].paddr == paddr
            && paddr == (if seg.ptable[i].valid then seg.ptable[i].paddr else frame)
            && seg'.ptable[i].dirty == (seg.ptable[i].dirty || dirty)
  {
  }

  // ----- frames -----

  /** Spaces as before except that entry i of segment k of space id is valid and holds p. */
  ghost predicate TouchedOne(spaces: map<nat, Space>, spaces': map<nat, Space>, id: nat, k: Kind, i: nat, p: nat) {
    && Touched(spaces', id, k, i) && FrameOf(spaces', id, k, i) == p
    && (Touched(spaces, id, k, i) ==> FrameOf(spaces, id, k, i) == p)
    && (forall id2: nat, k2: Kind, i2: nat :: !(id2 == id && k2 == k && i2 == i) ==>
          (Touched(spaces', id2, k2, i2) <==> Touched(spaces, id2, k2, i2))
          && (Touched(spaces, id2, k2, i2) ==> FrameOf(spaces', id2, k2, i2) == FrameOf(spaces, id2, k2, i2)))
  }

  lemma LookupTouches(spaces: map<nat, Space>, id: nat, k: Kind, seg': Segment, i: nat)
    requires id in spaces && i < |Get(spaces[id], k).ptable| == |seg'.ptable|
    requires seg' == Get(spaces[id], k).(ptable := Get(spaces[id], k).ptable[i := seg'.ptable[i]])
          && seg'.ptable[i].valid
    requires Get(spaces[id], k).ptable[i].valid ==> Get(spaces[id], k).ptable[i].paddr == seg'.ptable[i].paddr
    ensures TouchedOne(spaces, spaces[id := Put(spaces[id], k, seg')], id, k, i, seg'.ptable[i].paddr)
  {
  }

  // ----- translations -----

  /** Page-table entries have no say in which segment a page belongs to. */
  lemma WhichKeeps(a: Space, k: Kind, seg': Segment, w: nat)
    requires seg' == Get(a, k).(ptable := seg'.ptable)
    ensures Which(Put(a, k, seg'), w) == Which(a, w)
  {
  }

  /** Touching one page changes no other page's translation, and gives the page its frame. */
  lemma TranslateKeeps(a: Space, k: Kind, seg': Segment, v: nat, w: nat)
    requires SpaceOk(a) && Which(a, v) == Some(k) && v % PAGE_SIZE == 0 && w % PAGE_SIZE == 0
    requires |seg'.ptable| == |Get(a, k).ptable| && 0 <= Index(Get(a, k), v) < |seg'.ptable|
    requires seg' == Get(a, k).(ptable := Get(a, k).ptable[Index(Get(a, k), v) := seg'.ptable[Index(Get(a, k), v)]])
    ensures Which(Put(a, k, seg'), w) == Which(a, w)
    ensures w != v ==> Translate(Put(a, k, seg'), w) == Translate(a, w)
    ensures w == v && seg'.ptable[Index(Get(a, k), v)].valid ==>
              Translate(Put(a, k, seg'), w) == Some(seg'.ptable[Index(Get(a, k), v)].paddr)
  {
    IndexInjective(Get(a, k), v, w);
    WhichKeeps(a, k, seg', w);
    SameIndex(Get(a, k), seg', w);
    SameIndex(Get(a, k), seg', v);
    hide Index, Which, SpaceOk;
  }

  lemma SameIndex(seg: Segment, seg': Segment, w: nat)
    requires seg'.vbase == seg.vbase
    ensures Index(seg', w) == Index(seg, w)
  {
  }

  // ----- every step keeps the invariant -----

  /** The address space and the frames after a fault. */
  lemma FaultTables(s: State, v: nat, write: bool, frame: nat) returns (id: nat, k: Kind, seg': Segment, paddr: nat)
    requires Inv(s) && CanFault(s, v) && FreshFrame(s, frame)
    ensures id in s.spaces && s.owner == s.current == Some(id) && Which(s.spaces[id], v) == Some(k)
    ensures 0 <= Index(Get(s.spaces[id], k), v) < |Get(s.spaces[id], k).ptable|
    ensures (seg', paddr) == Lookup(Get(s.spaces[id], k), v, write, frame)
    ensures SpaceOk(Put(s.spaces[id], k, seg')) && Ready(Put(s.spaces[id], k, seg'))
    ensures FramesOk(s.spaces[id := Put(s.spaces[id], k, seg')], if paddr == frame then s.used + {frame} else s.used)
    ensures paddr % PAGE_SIZE == 0
    ensures forall w: nat :: w % PAGE_SIZE == 0 ==> Moved(s.spaces[id], Put(s.spaces[id], k, seg'), v, w, paddr)
  {
    hide FramesOk, EntryOk, Covers, InStack;
    id := s.current.value;
    var a := s.spaces[id];
    k := Which(a, v).value;
    IndexOk(a, k, v);
    var seg := Get(a, k);
    var i := Index(seg, v);
    LookupFacts(seg, v, write, frame);
    seg', paddr := Lookup(seg, v, write, frame).0, Lookup(seg, v, write, frame).1;
    LookupTouches(s.spaces, id, k, seg', i);
    FaultFrames(s, id, k, seg', i, paddr, frame);
    forall w: nat | w % PAGE_SIZE == 0
      ensures Moved(a, Put(a, k, seg'), v, w, paddr)
    {
      TranslateKeeps(a, k, seg', v, w);
    }
  }

  /** The frame given to a new page, being fresh, keeps all frames distinct; an old page keeps its own. */
  lemma FaultFrames(s: State, id: nat, k: Kind, seg': Segment, i: nat, paddr: nat, frame: nat)
    requires FramesOk(s.spaces, s.used) && FreshFrame(s, frame) && id in s.spaces
    requires TouchedOne(s.spaces, s.spaces[id := Put(s.spaces[id], k, seg')], id, k, i, paddr)
    requires !Touched(s.spaces, id, k, i) ==> paddr == frame
    ensures FramesOk(s.spaces[id := Put(s.spaces[id], k, seg')], if paddr == frame then s.used + {frame} else s.used)
    ensures paddr % PAGE_SIZE == 0
  {
  }

  /** What touching page v does to the translation of page w. */
  predicate Moved(a: Space, a': Space, v: nat, w: nat, paddr: nat) {
    && Which(a', w) == Which(a, w) && a'.loaded == a.loaded
    && Translate(a', w) == if w == v then Some(paddr) else Translate(a, w)
  }

  /** The state after a fault, once its page-table entry is known. */
  ghost predicate Filled(s: State, s': State, slot: nat, id: nat, a': Space, e: Entry) {
    && slot < NUM_TLB == |s.tlb| && id in s.spaces && s'.current == s.current && s'.owner == s.owner
    && s'.spaces == s.spaces[id := a'] && s'.tlb == s.tlb[slot := e] && s'.next < NUM_TLB
  }

  lemma FaultFills(s: State, s': State, v: nat, write: bool, frame: nat, id: nat, k: Kind, seg': Segment, paddr: nat)
    returns (slot: nat)
    requires StepFault(s, s', v, write, frame) && s.current == Some(id) && Which(s.spaces[id], v) == Some(k)
    requires (seg', paddr) == Lookup(Get(s.spaces[id], k), v, write, frame)
    ensures Filled(s, s', slot, id, Put(s.spaces[id], k, seg'),
          Entry(true, v, paddr, !(k == Code && s.spaces[id].loaded)))
    ensures s'.used == if paddr == frame then s.used + {frame} else s.used
    ensures slot == if FreeSlot(s.tlb, 0) < NUM_TLB then FreeSlot(s.tlb, 0) else s.next
  {
    hide Which, Lookup, Ready, Index;
    var free := FreeSlot(s.tlb, 0);
    slot := if free < NUM_TLB then free else s.next;
  }

  lemma FilledEntries(s: State, s': State, slot: nat, id: nat, a': Space, e: Entry, v: nat)
    requires Filled(s, s', slot, id, a', e) && s.owner == Some(id) && e.valid && e.vpage == v && v % PAGE_SIZE == 0
          && Ready(a')
    requires forall w: nat :: w % PAGE_SIZE == 0 ==> Moved(s.spaces[id], a', v, w, e.paddr)
    requires !e.writable ==> Which(s.spaces[id], v) == Some(Code) && s.spaces[id].loaded
    requires forall i :: 0 <= i < NUM_TLB ==> EntryOk(s, i) && (s.tlb[i].valid ==> s.tlb[i].vpage != v)
    ensures forall i :: 0 <= i < NUM_TLB ==> EntryOk(s', i)
  {
    hide Translate, Which, Ready;
    forall i | 0 <= i < NUM_TLB ensures EntryOk(s', i) {
      assert EntryOk(s, i);
      if i == slot { assert Moved(s.spaces[id], a', v, v, e.paddr); }
      else if s.tlb[i].valid { assert Moved(s.spaces[id], a', v, s.tlb[i].vpage, e.paddr); }
    }
  }

  lemma FaultKeeps(s: State, s': State, v: nat, write: bool, frame: nat)
    requires Inv(s) && StepFault(s, s', v, write, frame)
    ensures Inv(s')
  {
    hide FramesOk, Translate, Which, SpaceOk, Ready, Lookup, Index, EntryOk, Moved, Put, Get, StepFault;
    assert CanFault(s, v) && FreshFrame(s, frame) by { FaultCan(s, s', v, write, frame); }
    var id, k, seg', paddr := FaultTables(s, v, write, frame);
    var slot := FaultFills(s, s', v, write, frame, id, k, seg', paddr);
    var a' := Put(s.spaces[id], k, seg');
    FilledEntries(s, s', slot, id, a', Entry(true, v, paddr, !(k == Code && s.spaces[id].loaded)), v);
  }

  lemma FaultCan(s: State, s': State, v: nat, write: bool, frame: nat)
    requires StepFault(s, s', v, write, frame)
    ensures CanFault(s, v) && FreshFrame(s, frame)
  {
  }

  lemma ActivateKeeps(s: State, s': State, as': Option<nat>)
    requires Inv(s) && StepActivate(s, s', as')
    ensures Inv(s')
  {
    hide FramesOk, SpaceOk, Ready, Translate, Which;
    forall i | 0 <= i < NUM_TLB ensures EntryOk(s', i) { assert EntryOk(s, i); }
  }

  /** Replacing a space by one whose page tables hold no more frames. */
  lemma FewerFrames(spaces: map<nat, Space>, used: set<nat>, id: nat, a: Space)
    requires FramesOk(spaces, used)
    requires forall k: Kind, i: nat :: Touched(spaces[id := a], id, k, i) ==>
               Touched(spaces, id, k, i) && FrameOf(spaces, id, k, i) == FrameOf(spaces[id := a], id, k, i)
    ensures FramesOk(spaces[id := a], used)
  {
    var spaces' := spaces[id := a];
    forall id2: nat, k: Kind, i: nat | Touched(spaces', id2, k, i)
      ensures Touched(spaces, id2, k, i) && FrameOf(spaces', id2, k, i) == FrameOf(spaces, id2, k, i)
    {
    }
    hide Touched, FrameOf;
  }

  lemma CreateKeeps(s: State, s': State, id: nat)
    requires Inv(s) && StepCreate(s, s', id)
    ensures Inv(s')
  {
    hide Ready, Translate, Which;
    FewerFrames(s.spaces, s.used, id, NewSpace());
    hide FramesOk;
    forall i | 0 <= i < NUM_TLB ensures EntryOk(s', i) { assert EntryOk(s, i); }
  }

  lemma RoundOk(vaddr: nat, sz: nat)
    requires vaddr < WORD && sz < WORD
    ensures var r := Round(vaddr, sz); r.vbase % PAGE_SIZE == 0 && r.vbase < WORD && r.npages * PAGE_SIZE < WORD
  {
  }

  /** A space that can still take a region has never been faulted on, so the TLB holds nothing of it. */
  lemma DefineKeeps(s: State, s': State, id: nat, vaddr: nat, sz: nat)
    requires Inv(s) && StepDefine(s, s', id, vaddr, sz)
    ensures Inv(s')
  {
    var d := DefineRegion(s.spaces[id], vaddr, sz);
    if d.Ok? {
      RoundOk(vaddr, sz);
      hide Translate, Which, Round;
      FewerFrames(s.spaces, s.used, id, d.space);
      hide FramesOk, Touched;
      forall i | 0 <= i < NUM_TLB ensures EntryOk(s', i) { assert EntryOk(s, i); }
    }
  }

  lemma LoadedKeeps(s: State, s': State, id: nat)
    requires Inv(s) && StepLoaded(s, s', id)
    ensures Inv(s')
  {
    var a := s.spaces[id].(loaded := true);
    FewerFrames(s.spaces, s.used, id, a);
    hide FramesOk, Touched, Covers, InStack;
    forall i | 0 <= i < NUM_TLB ensures EntryOk(s', i) { assert EntryOk(s, i); }
  }

  lemma StepKeeps(s: State, l: Label, s': State)
    requires Inv(s) && Step(s, l, s')
    ensures Inv(s')
  {
    hide Inv, StepFault, StepActivate, StepCreate, StepDefine, StepLoaded;
    match l
    case Fault(v, write, frame) => FaultKeeps(s, s', v, write, frame);
    case Activate(as') => ActivateKeeps(s, s', as');
    case Create(id) => CreateKeeps(s, s', id);
    case Define(id, vaddr, sz) => DefineKeeps(s, s', id, vaddr, sz);
    case Loaded(id) => LoadedKeeps(s, s', id);
  }

  // ----- every run -----

  ghost predicate Init(s: State) {
    && s.spaces == map[] && s.current == None && s.owner == None && s.next == 0
    && |s.tlb| == NUM_TLB && forall i :: 0 <= i < NUM_TLB ==> !s.tlb[i].valid
  }

  ghost predicate IsRun(states: seq<State>, labels: seq<Label>) {
    && |states| == |labels| + 1 && Init(states[0])
    && forall i :: 0 <= i < |labels| ==> Step(states[i], labels[i], states[i + 1])
  }

  lemma {:induction false} RunInv(states: seq<State>, labels: seq<Label>, n: nat)
    requires IsRun(states, labels) && n <= |labels|
    ensures Inv(states[n])
  {
    hide Inv, Init, Step;
    if n == 0 {
      assert Inv(states[0]) by { InitInv(states[0]); }
    } else {
      RunInv(states, labels, n - 1);
      StepKeeps(states[n - 1], labels[n - 1], states[n]);
    }
  }

  lemma InitInv(s: State)
    requires Init(s)
    ensures Inv(s)
  {
  }

  /**
   * In every run, while an address space is current: each valid TLB entry maps its page as
   * that space's page tables do, and no page is mapped twice. Distinct page-table entries,
   * of any spaces, hold distinct frames.
   */
  lemma RunAgrees(states: seq<State>, labels: seq<Label>, n: nat)
    requires IsRun(states, labels) && n <= |labels|
    ensures var s := states[n];
            && |s.tlb| == NUM_TLB
            && (s.current.Some? ==> s.current.value in s.spaces && forall i :: 0 <= i < NUM_TLB && s.tlb[i].valid ==>
                  Translate(s.spaces[s.current.value], s.tlb[i].vpage) == Some(s.tlb[i].paddr))
            && (forall i, j :: 0 <= i < j < NUM_TLB && s.tlb[i].valid && s.tlb[j].valid ==>
               s.tlb[i].vpage != s.tlb[j].vpage)
            && FramesOk(s.spaces, s.used)
  {
    hide Init, Step, FramesOk, Translate;
    RunInv(states, labels, n);
    var s := states[n];
    forall i | 0 <= i < NUM_TLB && s.tlb[i].valid && s.current.Some?
      ensures Translate(s.spaces[s.current.value], s.tlb[i].vpage) == Some(s.tlb[i].paddr)
    {
      assert EntryOk(s, i);
    }
  }

  /** vm_fault never indexes outside a page table: StepFault's bound always holds where it can fault. */
  lemma RunInBounds(states: seq<State>, labels: seq<Label>, n: nat, v: nat)
    requires IsRun(states, labels) && n <= |labels| && CanFault(states[n], v)
    ensures var a := states[n].spaces[states[n].current.value];
            var seg := Get(a, Which(a, v).value);
            0 <= Index(seg, v) < |seg.ptable| == seg.npages
  {
    hide Init, Step, FramesOk, EntryOk;
    RunInv(states, labels, n);
    var a := states[n].spaces[states[n].current.value];
    assert SpaceOk(a);
    IndexOk(a, Which(a, v).value, v);
  }

  // ----- what a fault installs -----

  /** The space's record of page v: its page-table entry. */
  function PteOf(a: Space, v: nat): Option<Pte> {
    var k := Which(a, v);
    if k.None? then None
    else
      var seg := Get(a, k.value);
      if 0 <= Index(seg, v) < |seg.ptable| then Some(seg.ptable[Index(seg, v)]) else None
  }

  /**
   * In every run, a fault installs one entry for its page, in an invalid slot while there is one,
   * and leaves the other slots alone. The entry maps the page to the frame it had, or to the new
   * one on its first touch, and is writable unless the page is code that has been loaded. The
   * page is dirty from its first write on.
   */
  lemma RunFault(states: seq<State>, labels: seq<Label>, n: nat) returns (slot: nat)
    requires IsRun(states, labels) && n < |labels| && labels[n].Fault?
    ensures var s, s', v := states[n], states[n + 1], labels[n].v;
            && s.current.Some? && s.current.value in s.spaces && s.current.value in s'.spaces
            && |s.tlb| == |s'.tlb| == NUM_TLB && slot < NUM_TLB
            && var a, a' := s.spaces[s.current.value], s'.spaces[s.current.value];
               && s'.tlb[slot].valid && s'.tlb[slot].vpage == v
               && s'.tlb[slot].paddr == (if Translate(a, v).Some? then Translate(a, v).value else labels[n].frame)
               && Translate(a', v) == Some(s'.tlb[slot].paddr)
               && (s'.tlb[slot].writable <==> !(Which(a, v) == Some(Code) && a.loaded))
               && (forall i :: 0 <= i < NUM_TLB && i != slot ==> s'.tlb[i] == s.tlb[i])
               && ((exists i :: 0 <= i < NUM_TLB && !s.tlb[i].valid) ==> !s.tlb[slot].valid)
               && PteOf(a, v).Some? && PteOf(a', v).Some?
               && PteOf(a', v).value.dirty == (PteOf(a, v).value.dirty || labels[n].write)
  {
    RunInv(states, labels, n);
    var s, s', l := states[n], states[n + 1], labels[n];
    assert Step(s, l, s');
    FaultCan(s, s', l.v, l.write, l.frame);
    var id := s.current.value;
    var a := s.spaces[id];
    var k := Which(a, l.v).value;
    assert SpaceOk(a);
    hide Init, EntryOk, FramesOk, IsRun;
    IndexOk(a, k, l.v);
    hide Inv, Ready;
    var (seg, paddr) := Lookup(Get(a, k), l.v, l.write, l.frame);
    LookupFacts(Get(a, k), l.v, l.write, l.frame);
    slot := FaultFills(s, s', l.v, l.write, l.frame, id, k, seg, paddr);
    WhichKeeps(a, k, seg, l.v);
    FreeFirst(s, s', l.v, l.write, l.frame, slot);
  }

  lemma FreeFirst(s: State, s': State, v: nat, write: bool, frame: nat, slot: nat)
    requires StepFault(s, s', v, write, frame)
    requires slot == if FreeSlot(s.tlb, 0) < NUM_TLB then FreeSlot(s.tlb, 0) else s.next
    ensures slot < |s.tlb| && ((exists i :: 0 <= i < NUM_TLB && !s.tlb[i].valid) ==> !s.tlb[slot].valid)
  {
    hide Which, Lookup, Ready, Index;
  }

  // ----- round-robin replacement -----

  predicate Replaces(s: State, l: Label) {
    l.Fault? && Full(s.tlb)
  }

  predicate Flushes(l: Label) {
    l.Activate? && l.as'.Some?
  }

  function Replacements(states: seq<State>, labels: seq<Label>, lo: nat, hi: nat): nat
    requires lo <= hi <= |labels| <= |states|
    decreases hi
  {
    if lo == hi then 0
    else Replacements(states, labels, lo, hi - 1) + if Replaces(states[hi - 1], labels[hi - 1]) then 1 else 0
  }

  /** Without a flush, a full TLB stays full, and replacements go round the slots in order. */
  lemma StepReplaces(s: State, l: Label, s': State, slot: nat)
    requires Step(s, l, s') && !Flushes(l) && Full(s.tlb) && |s.tlb| == NUM_TLB && s.next < NUM_TLB && slot < NUM_TLB
    ensures Full(s'.tlb) && |s'.tlb| == NUM_TLB
    ensures s'.next == if Replaces(s, l) then (s.next + 1) % NUM_TLB else s.next
    ensures !(Replaces(s, l) && slot == s.next) ==> s'.tlb[slot] == s.tlb[slot]
  {
  }

  lemma {:induction false} Survives(states: seq<State>, labels: seq<Label>, n: nat, m: nat)
    requires IsRun(states, labels) && n < m <= |labels| && Replaces(states[n], labels[n])
    requires forall i :: n <= i < m ==> !Flushes(labels[i])
    requires Replacements(states, labels, n + 1, m) < NUM_TLB
    ensures |states[m].tlb| == NUM_TLB && Full(states[m].tlb) && states[n].next < NUM_TLB
    ensures states[m].next == (states[n].next + 1 + Replacements(states, labels, n + 1, m)) % NUM_TLB
    ensures states[m].tlb[states[n].next] == states[n + 1].tlb[states[n].next]
    ensures states[m].tlb[states[n].next].valid && states[m].tlb[states[n].next].vpage == labels[n].v
    decreases m
  {
    hide Step, Init, Full;
    RunInv(states, labels, n);
    RunInv(states, labels, m - 1);
    var slot := states[n].next;
    if m == n + 1 {
      StepReplaces(states[n], labels[n], states[m], slot);
      Installed(states[n], labels[n], states[m]);
    } else {
      Survives(states, labels, n, m - 1);
      StepReplaces(states[m - 1], labels[m - 1], states[m], slot);
      if Replaces(states[m - 1], labels[m - 1]) { Around(slot, Replacements(states, labels, n + 1, m - 1)); }
    }
  }

  lemma Installed(s: State, l: Label, s': State)
    requires Step(s, l, s') && Replaces(s, l) && |s.tlb| == NUM_TLB && s.next < NUM_TLB
    ensures s'.tlb[s.next].valid && s'.tlb[s.next].vpage == l.v
  {
  }

  lemma Around(slot: nat, r: nat)
    requires slot < NUM_TLB && r < NUM_TLB - 1
    ensures (slot + 1 + r) % NUM_TLB != slot
    ensures ((slot + 1 + r) % NUM_TLB + 1) % NUM_TLB == (slot + 1 + (r + 1)) % NUM_TLB
  {
  }

  // ----- protection of code -----

  /** A valid entry of the owner's code segment that may be written. */
  ghost predicate WritableCode(s: State, i: nat) {
    && i < |s.tlb| && s.tlb[i].valid && s.tlb[i].writable
    && s.owner.Some? && s.owner.value in s.spaces && Which(s.spaces[s.owner.value], s.tlb[i].vpage) == Some(Code)
  }

  /** The entry in slot i has been there since, and the TLB has not been flushed. */
  predicate Unflushed(states: seq<State>, labels: seq<Label>, n: nat, m: nat, i: nat)
    requires n <= m <= |labels| == |states| - 1
  {
    i < |states[m].tlb| == |states[n].tlb| && states[m].tlb[i] == states[n].tlb[i]
    && forall k :: n <= k < m ==> !Flushes(labels[k])
  }

  lemma StepWritable(s: State, l: Label, s': State, i: nat, id: nat)
    requires Inv(s) && Step(s, l, s') && id in s.spaces && s.spaces[id].loaded && s'.owner == Some(id)
    requires WritableCode(s', i) && Ready(s.spaces[id])
    ensures !Flushes(l) && s.owner == Some(id) && i < |s.tlb| == |s'.tlb| && s'.tlb[i] == s.tlb[i] && WritableCode(s, i)
  {
    hide FramesOk, EntryOk, SpaceOk, Covers, Ready, Index;
    assert |s.tlb| == NUM_TLB;
    if l.Fault? {
      WritableAfterFault(s, l, s', i, id);
    } else if l.Define? || l.Loaded? {
      OtherSpaces(s, l, s', id);
    }
  }

  lemma OtherSpaces(s: State, l: Label, s': State, id: nat)
    requires Step(s, l, s') && (l.Define? || l.Loaded?) && id in s.spaces && Ready(s.spaces[id])
    ensures id in s'.spaces && s'.tlb == s.tlb && s'.owner == s.owner
    ensures forall v: nat :: Which(s'.spaces[id], v) == Which(s.spaces[id], v)
  {
    hide Round, EmptyTable, Covers;
  }

  lemma WritableAfterFault(s: State, l: Label, s': State, i: nat, id: nat)
    requires Inv(s) && Step(s, l, s') && l.Fault? && id in s.spaces && s.spaces[id].loaded && s'.owner == Some(id)
    requires WritableCode(s', i)
    ensures s.owner == Some(id) && i < |s.tlb| && s'.tlb[i] == s.tlb[i] && WritableCode(s, i)
  {
    FaultCan(s, s', l.v, l.write, l.frame);
    hide FramesOk, EntryOk, SpaceOk, Covers, Ready, Index, InStack;
    var a := s.spaces[s.current.value];
    var k := Which(a, l.v).value;
    var (seg, paddr) := Lookup(Get(a, k), l.v, l.write, l.frame);
    var slot := FaultFills(s, s', l.v, l.write, l.frame, s.current.value, k, seg, paddr);
    WhichKeeps(a, k, seg, s'.tlb[i].vpage);
  }

  /**
   * When loading is complete, code is read-only, except through TLB entries that were already
   * there: in every run, slot i holds a writable entry for a code page of a loaded space if and
   * only if it held it when the load was completed and the TLB has not been flushed or the entry
   * replaced since.
   */
  lemma RunProtected(states: seq<State>, labels: seq<Label>, n: nat, m: nat, i: nat, id: nat)
    requires IsRun(states, labels) && n < m <= |labels| && labels[n] == Loaded(id)
    requires id in states[n].spaces && Ready(states[n].spaces[id])
    ensures states[m].owner == Some(id) && WritableCode(states[m], i)
            <==> states[n].owner == Some(id) && WritableCode(states[n], i) && Unflushed(states, labels, n, m, i)
  {
    hide Inv, Step, Init, Ready, Flushes;
    if states[m].owner == Some(id) && WritableCode(states[m], i) {
      WritableSince(states, labels, n, m, i, id);
    }
    if states[n].owner == Some(id) && WritableCode(states[n], i) && Unflushed(states, labels, n, m, i) {
      OwnerStays(states, labels, n, m);
      RunLayout(states, labels, n, m, id);
      hide Which;
    }
  }

  lemma {:induction false} OwnerStays(states: seq<State>, labels: seq<Label>, n: nat, m: nat)
    requires IsRun(states, labels) && n <= m <= |labels| && forall k :: n <= k < m ==> !Flushes(labels[k])
    ensures states[m].owner == states[n].owner
    decreases m
  {
    if n < m {
      OwnerStays(states, labels, n, m - 1);
      assert Step(states[m - 1], labels[m - 1], states[m]);
      hide IsRun;
    }
  }

  lemma {:induction false} WritableSince(states: seq<State>, labels: seq<Label>, n: nat, m: nat, i: nat, id: nat)
    requires IsRun(states, labels) && n < m <= |labels| && labels[n] == Loaded(id)
    requires id in states[n].spaces && Ready(states[n].spaces[id])
    requires states[m].owner == Some(id) && WritableCode(states[m], i)
    ensures Unflushed(states, labels, n, m, i)
    ensures states[n].owner == Some(id) && WritableCode(states[n], i)
    decreases m
  {
    hide Inv, Step, Init, Which, Ready, WritableCode, Flushes;
    RunInv(states, labels, m - 1);
    RunLayout(states, labels, n, m - 1, id);
    if m == n + 1 {
      WritableAtLoad(states[n], labels[n], states[m], i, id);
    } else {
      StaysLoaded(states, labels, n, m - 1, id);
      StepWritable(states[m - 1], labels[m - 1], states[m], i, id);
      WritableSince(states, labels, n, m - 1, i, id);
    }
  }

  lemma WritableAtLoad(s: State, l: Label, s': State, i: nat, id: nat)
    requires Step(s, l, s') && l == Loaded(id) && id in s.spaces && Ready(s.spaces[id])
    requires s'.owner == Some(id) && WritableCode(s', i)
    ensures s.owner == Some(id) && WritableCode(s, i) && i < |s.tlb| == |s'.tlb| && s'.tlb[i] == s.tlb[i] && !Flushes(l)
  {
    OtherSpaces(s, l, s', id);
    hide Which, Ready, Step;
  }

  lemma {:induction false} StaysLoaded(states: seq<State>, labels: seq<Label>, n: nat, m: nat, id: nat)
    requires IsRun(states, labels) && n < m <= |labels| && labels[n] == Loaded(id)
    requires id in states[n].spaces && Ready(states[n].spaces[id])
    ensures id in states[m].spaces && states[m].spaces[id].loaded
    decreases m
  {
    assert Step(states[m - 1], labels[m - 1], states[m]);
    if m > n + 1 {
      StaysLoaded(states, labels, n, m - 1, id);
      RunLayout(states, labels, n, m - 1, id);
      hide Init, IsRun;
      LoadedStep(states[m - 1], labels[m - 1], states[m], id);
    }
  }

  /** In every run, a space counts as loaded from the moment its load is complete, and not before. */
  lemma {:induction false} RunLoaded(states: seq<State>, labels: seq<Label>, n: nat, id: nat)
    requires IsRun(states, labels) && n <= |labels| && id in states[n].spaces
    ensures states[n].spaces[id].loaded <==> exists k :: 0 <= k < n && labels[k] == Loaded(id)
  {
    if n > 0 {
      assert Step(states[n - 1], labels[n - 1], states[n]);
      if id in states[n - 1].spaces {
        RunLoaded(states, labels, n - 1, id);
      } else {
        NeverLoaded(states, labels, n - 1, id);
      }
      hide Init, IsRun;
      LoadedChange(states[n - 1], labels[n - 1], states[n], id);
    }
  }

  lemma {:induction false} NeverLoaded(states: seq<State>, labels: seq<Label>, n: nat, id: nat)
    requires IsRun(states, labels) && n <= |labels| && id !in states[n].spaces
    ensures forall k :: 0 <= k < n ==> labels[k] != Loaded(id)
  {
    if n > 0 {
      assert Step(states[n - 1], labels[n - 1], states[n]);
      SpacesStay(states[n - 1], labels[n - 1], states[n], id);
      NeverLoaded(states, labels, n - 1, id);
    }
  }

  lemma SpacesStay(s: State, l: Label, s': State, id: nat)
    requires Step(s, l, s')
    ensures id in s.spaces ==> id in s'.spaces
  {
    hide Round, EmptyTable, Covers, FreeSlot, InvalidTlb;
  }

  lemma LoadedChange(s: State, l: Label, s': State, id: nat)
    requires Step(s, l, s') && id in s'.spaces
    ensures s'.spaces[id].loaded <==> l == Loaded(id) || (id in s.spaces && s.spaces[id].loaded)
  {
    hide Round, EmptyTable, Covers, FreeSlot, InvalidTlb;
  }

  lemma LoadedStep(s: State, l: Label, s': State, id: nat)
    requires Step(s, l, s') && id in s.spaces && s.spaces[id].loaded
    ensures id in s'.spaces && s'.spaces[id].loaded
  {
    hide Round, EmptyTable, Covers, FreeSlot, InvalidTlb;
  }

  // ----- regions -----

  /** The rounding alone: the page count makes up the size exactly when nothing overflows 32 bits. */
  lemma RoundCovers(vaddr: nat, sz: nat)
    requires vaddr < WORD && sz < WORD
    ensures var r := Round(vaddr, sz);
            (r.vbase <= vaddr && vaddr + sz <= r.vbase + r.npages * PAGE_SIZE)
            <==> vaddr % PAGE_SIZE + sz + PAGE_SIZE - 1 < WORD
    ensures vaddr % PAGE_SIZE + sz + PAGE_SIZE - 1 < WORD ==>
              Round(vaddr, sz).npages * PAGE_SIZE < vaddr % PAGE_SIZE + sz + PAGE_SIZE
  {
  }

  /** The segment's range holds the page of every byte of the region. */
  ghost predicate Mapped(seg: Segment, vaddr: nat, sz: nat) {
    forall v: nat :: vaddr <= v < vaddr + sz ==> Covers(seg, Page(v))
  }

  lemma ByteMapped(vaddr: nat, sz: nat, v: nat)
    requires vaddr + sz + PAGE_SIZE - 1 < WORD && vaddr <= v < vaddr + sz
    ensures var r := Round(vaddr, sz); r.vbase <= Page(v) < (r.vbase + r.npages * PAGE_SIZE) % WORD
  {
  }

  /** Too close to 4 GB, the region loses its first byte or its last. */
  lemma ByteLost(vaddr: nat, sz: nat)
    requires vaddr < WORD && 0 < sz < WORD && vaddr + sz + PAGE_SIZE - 1 >= WORD
    ensures var r := Round(vaddr, sz);
            var top := (r.vbase + r.npages * PAGE_SIZE) % WORD;
            Page(vaddr) >= top || Page(vaddr + sz - 1) >= top
  {
  }

  /** The region is empty, or its end is at least a page below 4 GB. */
  predicate Fits(vaddr: nat, sz: nat) {
    sz == 0 || vaddr + sz + PAGE_SIZE - 1 < WORD
  }

  /**
   * The new segment's range holds every byte of the region if and only if the region fits; both
   * the rounding of the size and the 32-bit end of the segment come down to that.
   */
  lemma RangeHolds(a: Space, vaddr: nat, sz: nat)
    requires vaddr < WORD && sz < WORD && DefineRegion(a, vaddr, sz).Ok?
    ensures Mapped(Get(DefineRegion(a, vaddr, sz).space, NextKind(a)), vaddr, sz) <==> Fits(vaddr, sz)
  {
    hide Round, Page;
    var seg := Get(DefineRegion(a, vaddr, sz).space, NextKind(a));
    if vaddr + sz + PAGE_SIZE - 1 < WORD {
      forall v: nat | vaddr <= v < vaddr + sz ensures Covers(seg, Page(v)) { ByteMapped(vaddr, sz, v); }
    } else if sz > 0 {
      ByteLost(vaddr, sz);
      assert !Covers(seg, Page(vaddr)) || !Covers(seg, Page(vaddr + sz - 1));
    }
  }

  /** vm_fault consults segment k for every byte of the region. */
  ghost predicate Serves(a: Space, k: Kind, vaddr: nat, sz: nat) {
    forall v: nat :: vaddr <= v < vaddr + sz ==> Which(a, Page(v)) == Some(k)
  }

  ghost predicate Misses(seg: Segment, vaddr: nat, sz: nat) {
    forall v: nat :: vaddr <= v < vaddr + sz ==> !Covers(seg, Page(v))
  }

  /**
   * When as_define_region succeeds, vm_fault consults the new segment for every byte of the
   * region if and only if the region fits below 4 GB and, for data, no page of it is in the
   * code segment, which vm_fault tries first.
   */
  lemma RegionMapped(a: Space, vaddr: nat, sz: nat)
    requires vaddr < WORD && sz < WORD && DefineRegion(a, vaddr, sz).Ok?
    ensures var k := NextKind(a);
            Serves(DefineRegion(a, vaddr, sz).space, k, vaddr, sz)
            <==> Fits(vaddr, sz) && (k == Data ==> Misses(a.code, vaddr, sz))
  {
    hide Round, Page, Covers, Fits;
    RangeHolds(a, vaddr, sz);
    var a' := DefineRegion(a, vaddr, sz).space;
    if Serves(a', NextKind(a), vaddr, sz) {
      forall v: nat | vaddr <= v < vaddr + sz
        ensures Covers(Get(a', NextKind(a)), Page(v)) && (NextKind(a) == Data ==> !Covers(a.code, Page(v)))
      {
        assert Which(a', Page(v)) == Some(NextKind(a));
      }
    }
  }

  /** The overlap as a check on the two ranges: the segment is empty, or lies above or below the region's pages. */
  predicate Clear(seg: Segment, vaddr: nat, sz: nat) {
    sz == 0 || Top(seg) <= seg.vbase || Page(vaddr + sz - 1) < seg.vbase || Top(seg) <= Page(vaddr)
  }

  lemma ClearExactly(seg: Segment, vaddr: nat, sz: nat)
    requires SegOk(seg)
    ensures Misses(seg, vaddr, sz) <==> Clear(seg, vaddr, sz)
  {
    if !Clear(seg, vaddr, sz) {
      var v := if vaddr < seg.vbase then seg.vbase else vaddr;
      assert vaddr <= v < vaddr + sz && Covers(seg, Page(v));
    }
  }

  /**
   * A region on page zero leaves its segment looking undefined: vm_fault's assertions fail, and
   * the next definition overwrites the segment. No definition overwrites any other segment.
   */
  lemma PageZero(a: Space, vaddr: nat, sz: nat, vaddr2: nat, sz2: nat)
    requires DefineRegion(a, vaddr, sz).Ok?
    ensures var k, a' := NextKind(a), DefineRegion(a, vaddr, sz).space;
            && (Page(vaddr) == 0 <==> Get(a', k).vbase == 0)
            && (Page(vaddr) == 0 ==> !Ready(a') && !DefineRegion(a', vaddr2, sz2).TooMany?)
            && (DefineRegion(a', vaddr2, sz2).Ok? ==>
                  Get(DefineRegion(a', vaddr2, sz2).space, k)
                  == if Page(vaddr) == 0 then SegmentOf(vaddr2, sz2) else Get(a', k))
  {
  }

  /** The two regions of an executable, and the stack: all are set up, and each is served by its own segment. */
  ghost predicate WellLaidOut(a: Space, vaddr1: nat, sz1: nat, vaddr2: nat, sz2: nat) {
    && Ready(a) && Serves(a, Code, vaddr1, sz1) && Serves(a, Data, vaddr2, sz2)
    && Serves(a, Stack, STACKBASE, STACKPAGES * PAGE_SIZE)
  }

  /** What loading an executable has to check of its two regions. */
  predicate Loadable(vaddr1: nat, sz1: nat, vaddr2: nat, sz2: nat, code: Segment, data: Segment) {
    && Page(vaddr1) != 0 && Page(vaddr2) != 0 && Fits(vaddr1, sz1) && Fits(vaddr2, sz2)
    && Clear(code, vaddr2, sz2)
    && Clear(code, STACKBASE, STACKPAGES * PAGE_SIZE) && Clear(data, STACKBASE, STACKPAGES * PAGE_SIZE)
  }

  lemma SegmentOfOk(vaddr: nat, sz: nat)
    requires vaddr < WORD && sz < WORD
    ensures SegOk(SegmentOf(vaddr, sz))
  {
  }

  lemma StackServed(a: Space)
    requires SegOk(a.code) && SegOk(a.data)
    ensures Serves(a, Stack, STACKBASE, STACKPAGES * PAGE_SIZE)
            <==> Clear(a.code, STACKBASE, STACKPAGES * PAGE_SIZE) && Clear(a.data, STACKBASE, STACKPAGES * PAGE_SIZE)
  {
    hide Clear, Covers;
    ClearExactly(a.code, STACKBASE, STACKPAGES * PAGE_SIZE);
    ClearExactly(a.data, STACKBASE, STACKPAGES * PAGE_SIZE);
    if Serves(a, Stack, STACKBASE, STACKPAGES * PAGE_SIZE) {
      forall v: nat | STACKBASE <= v < STACKBASE + STACKPAGES * PAGE_SIZE
        ensures !Covers(a.code, Page(v)) && !Covers(a.data, Page(v))
      {
        assert Which(a, Page(v)) == Some(Stack);
      }
    }
  }

  /**
   * The two regions of an executable, defined in a new address space: vm_fault passes its
   * assertions and serves every byte of both regions, and of the stack, from its own segment, if
   * and only if neither region is on page zero, both fit, and the three do not overlap.
   */
  lemma LayoutServed(vaddr1: nat, sz1: nat, vaddr2: nat, sz2: nat)
    requires vaddr1 < WORD && sz1 < WORD && vaddr2 < WORD && sz2 < WORD
    requires DefineRegion(NewSpace(), vaddr1, sz1).Ok?
    requires DefineRegion(DefineRegion(NewSpace(), vaddr1, sz1).space, vaddr2, sz2).Ok?
    ensures var a := DefineRegion(DefineRegion(NewSpace(), vaddr1, sz1).space, vaddr2, sz2).space;
            WellLaidOut(a, vaddr1, sz1, vaddr2, sz2)
            <==> Loadable(vaddr1, sz1, vaddr2, sz2, SegmentOf(vaddr1, sz1), SegmentOf(vaddr2, sz2))
  {
    hide Round, Fits, Clear, Covers, Serves, Misses;
    var a1 := DefineRegion(NewSpace(), vaddr1, sz1).space;
    var a2 := DefineRegion(a1, vaddr2, sz2).space;
    PageZero(NewSpace(), vaddr1, sz1, vaddr2, sz2);
    PageZero(a1, vaddr2, sz2, 0, 0);
    if Page(vaddr1) != 0 {
      SegmentOfOk(vaddr1, sz1);
      SegmentOfOk(vaddr2, sz2);
      RegionMapped(NewSpace(), vaddr1, sz1);
      RegionMapped(a1, vaddr2, sz2);
      CodeKeeps(a1, a2, vaddr1, sz1);
      ClearExactly(a1.code, vaddr2, sz2);
      StackServed(a2);
    }
  }

  /** Code is tried first, so what it serves does not depend on the other segments. */
  lemma CodeKeeps(a: Space, a': Space, vaddr: nat, sz: nat)
    requires a'.code == a.code
    ensures Serves(a', Code, vaddr, sz) <==> Serves(a, Code, vaddr, sz)
  {
    assert forall v: nat :: Which(a', v) == Some(Code) <==> Which(a, v) == Some(Code);
  }

  /** A space that is ready stays ready, and no step changes which segment serves which page. */
  lemma StepLayout(s: State, l: Label, s': State, id: nat)
    requires Step(s, l, s') && id in s.spaces && Ready(s.spaces[id])
    ensures id in s'.spaces && Ready(s'.spaces[id])
    ensures forall v: nat :: Which(s'.spaces[id], v) == Which(s.spaces[id], v)
  {
    hide Covers, InvalidTlb, FreeSlot, Index, Round, EmptyTable;
    if l.Fault? && s.current == Some(id) {
      var a := s.spaces[id];
      var k := Which(a, l.v).value;
      var (seg, paddr) := Lookup(Get(a, k), l.v, l.write, l.frame);
      forall v: nat ensures Which(s'.spaces[id], v) == Which(a, v) { WhichKeeps(a, k, seg, v); }
    }
  }

  /** A third region is refused, and changes nothing. */
  lemma ThirdRegion(a: Space, vaddr: nat, sz: nat)
    requires Ready(a)
    ensures DefineRegion(a, vaddr, sz).TooMany?
  {
  }

  /** In every run, once vm_fault's assertions hold of a space they hold for good, and its layout is fixed. */
  lemma {:induction false} RunLayout(states: seq<State>, labels: seq<Label>, n: nat, m: nat, id: nat)
    requires IsRun(states, labels) && n <= m <= |labels| && id in states[n].spaces && Ready(states[n].spaces[id])
    ensures id in states[m].spaces && Ready(states[m].spaces[id])
    ensures forall v: nat :: Which(states[m].spaces[id], v) == Which(states[n].spaces[id], v)
    decreases m
  {
    hide Step, Ready, Which, Init;
    if m > n {
      RunLayout(states, labels, n, m - 1, id);
      StepLayout(states[m - 1], labels[m - 1], states[m], id);
    }
  }

  /** The sizes that round to no pages, on which the definition fails an assertion. */
  lemma RoundsToNothing(vaddr: nat, sz: nat)
    requires vaddr < WORD && sz < WORD
    ensures Round(vaddr, sz).npages == 0
            <==> vaddr % PAGE_SIZE + sz == 0 || WORD - PAGE_SIZE < vaddr % PAGE_SIZE + sz <= WORD
  {
  }

  /** A size near 4 GB wraps to no pages, and the definition fails an assertion. */
  lemma RoundOverflows()
    ensures Round(0x1000, 0xFFFF_F001).npages == 0 && DefineRegion(NewSpace(), 0x1000, 0xFFFF_F001).Panic?
  {
  }

  /** The last page below 4 GB can be defined, but its segment's end wraps to zero and no fault ever finds it. */
  lemma TopRegionUnreachable()
    ensures var d := DefineRegion(NewSpace(), 0xFFFF_F000, 0x1000);
            d.Ok? && d.space.code.npages == 1 && forall v: nat :: !Covers(d.space.code, v)
  {
  }

  /** A second region in the place of the first is accepted, and every byte of it is served as code. */
  lemma OverlapServedAsCode()
    ensures var d1 := DefineRegion(NewSpace(), 0x40_0000, 0x1000);
            && d1.Ok?
            && var d2 := DefineRegion(d1.space, 0x40_0000, 0x1000);
               && d2.Ok? && Ready(d2.space) && Mapped(d2.space.data, 0x40_0000, 0x1000)
               && Serves(d2.space, Code, 0x40_0000, 0x1000)
  {
  }

  /** A region on page zero is accepted; the next one takes its place, and page zero is then in no segment. */
  lemma PageZeroReplaced()
    ensures var d1 := DefineRegion(NewSpace(), 0, 0x1000);
            && d1.Ok? && Mapped(d1.space.code, 0, 0x1000) && !Ready(d1.space)
            && var d2 := DefineRegion(d1.space, 0x40_0000, 0x1000);
               d2.Ok? && d2.space.code.vbase == 0x40_0000 && d2.space.data.npages == 0 && Which(d2.space, 0) == None
  {
  }
}
