/** The virtual memory system itself: vm_fault, as_activate, as_define_region and what they call. */
module Vm {
  import opened Common
  import opened VmSpec
  import opened VmProof

  datatype FaultType = Read | Write | ReadOnly | OtherFault

  /** Success, the error codes of vm_fault, the exit of the process, and a failed assertion. */
  datatype Result = Done | EInval | EFault | Exit | Panicked

  /** segment_prepare: a page table of n entries, none of them valid. */
  method Prepare(n: nat) returns (ptable: seq<Pte>)
    requires n != 0
    ensures ptable == EmptyTable(n)
  {
    ptable := [];
    var i := 0;
    while i < n
      invariant i <= n && ptable == EmptyTable(i)
    {
      ptable := ptable + [Pte(false, false, 0)];
      i := i + 1;
    }
  }

  method SegmentLookup(seg: Segment, vaddr: nat, dirty: bool, frame: nat) returns (seg': Segment, paddr: nat)
    requires seg.vbase % PAGE_SIZE == 0 && seg.vbase <= vaddr && vaddr % PAGE_SIZE == 0
          && Index(seg, vaddr) < |seg.ptable|
    ensures (seg', paddr) == Lookup(seg, vaddr, dirty, frame)
    ensures |seg'.ptable| == |seg.ptable| && seg'.ptable[Index(seg, vaddr)].valid
          && paddr == seg'.ptable[Index(seg, vaddr)].paddr
  {
    LookupFacts(seg, vaddr, dirty, frame);
    var vpn := (vaddr - seg.vbase) / PAGE_SIZE;
    var pte := seg.ptable[vpn];
    if dirty {
      pte := pte.(dirty := true);
    }
    if !pte.valid {
      paddr := frame;                                        // pte_load
      pte := pte.(valid := true, paddr := paddr);
    } else {
      paddr := pte.paddr + (vaddr - seg.vbase) % PAGE_SIZE;  // pte_reload
    }
    seg' := seg.(ptable := seg.ptable[vpn := pte]);
  }

  class Vm {
    var spaces: map<nat, Space>
    var current: Option<nat>
    var nextVictim: nat
    const tlb: array<Entry>
    ghost var owner: Option<nat>
    ghost var used: set<nat>

    ghost function View(): State
      reads this, tlb
    {
      State(spaces, current, tlb[..], nextVictim, owner, used)
    }

    ghost predicate Valid()
      reads this, tlb
    {
      tlb.Length == NUM_TLB && Inv(View())
    }

    constructor ()
      ensures Valid() && View().spaces == map[] && View().current == None && fresh(tlb)
    {
      tlb := new Entry[NUM_TLB](_ => Entry(false, 0, 0, false));
      spaces, current, nextVictim, owner, used := map[], None, 0, None, {};
      new;
      InitInv(View());
    }

    method RrVictim() returns (victim: nat)
      requires nextVictim < NUM_TLB
      modifies this`nextVictim
      ensures victim == old(nextVictim) && nextVictim == (victim + 1) % NUM_TLB
    {
      victim := nextVictim;
      nextVictim := (nextVictim + 1) % NUM_TLB;
    }

    /** The slot to write: the first invalid one, or the round-robin victim. */
    method ChooseSlot() returns (slot: nat)
      requires tlb.Length == NUM_TLB && nextVictim < NUM_TLB
      modifies this`nextVictim
      ensures var free := FreeSlot(tlb[..], 0);
              && slot == (if free < NUM_TLB then free else old(nextVictim))
              && nextVictim == (if free < NUM_TLB then old(nextVictim) else (old(nextVictim) + 1) % NUM_TLB)
    {
      var i := 0;
      while i < NUM_TLB
        invariant i <= NUM_TLB && FreeSlot(tlb[..], 0) == FreeSlot(tlb[..], i)
      {
        if !tlb[i].valid {
          return i;
        }
        i := i + 1;
      }
      slot := RrVictim();
    }

    /**
     * vm_fault. `frame` is what getppages would hand out. A READ or WRITE fault is a TLB miss
     * on its page; one that cannot be resolved leaves everything as it was.
     */
    method Fault(faulttype: FaultType, faultaddress: nat, frame: nat) returns (r: Result)
      requires Valid() && FreshFrame(View(), frame)
      requires faulttype == Read || faulttype == Write ==>
                 forall i :: 0 <= i < NUM_TLB && tlb[i].valid ==> tlb[i].vpage != Page(faultaddress)
      modifies this, tlb
      ensures Valid()
      ensures r == (if faulttype == ReadOnly then Exit
                    else if faulttype == OtherFault then EInval
                    else if old(current) == None then EFault
                    else if !Ready(old(spaces)[old(current).value]) then Panicked
                    else if Which(old(spaces)[old(current).value], Page(faultaddress)) == None then EFault
                    else Done)
      ensures r == Done ==> StepFault(old(View()), View(), Page(faultaddress), faulttype == Write, frame)
      ensures r != Done ==> View() == old(View())
    {
      var page := faultaddress - faultaddress % PAGE_SIZE;
      if faulttype == ReadOnly {
        return Exit;
      }
      if faulttype == OtherFault {
        return EInval;
      }
      var attemptingWrite := faulttype == Write;
      if current == None {
        return EFault;
      }
      var a := spaces[current.value];
      if !Ready(a) {
        return Panicked;
      }
      var readonly, kind := false, Stack;
      if Covers(a.code, page) {
        readonly, kind := a.loaded, Code;
      } else if Covers(a.data, page) {
        kind := Data;
      } else if !InStack(page) {
        return EFault;
      }
      hide EntryOk, FramesOk, Covers, InStack;
      IndexOk(a, kind, page);
      SegAligned(a, kind);
      r := Install(page, attemptingWrite, frame, kind, readonly);
    }

    method Install(page: nat, write: bool, frame: nat, kind: Kind, readonly: bool) returns (r: Result)
      requires Valid() && FreshFrame(View(), frame) && CanFault(View(), page)
      requires var a := spaces[current.value];
               && Which(a, page) == Some(kind) && readonly == (kind == Code && a.loaded)
               && Get(a, kind).vbase % PAGE_SIZE == 0 && Get(a, kind).vbase <= page
                  && 0 <= Index(Get(a, kind), page) < |Get(a, kind).ptable|
      modifies this, tlb
      ensures r == Done && Valid() && StepFault(old(View()), View(), page, write, frame)
    {
      hide EntryOk, FramesOk, Covers, InStack, Which, Index, Ready, Lookup, SpaceOk;
      ghost var s := View();
      var a := spaces[current.value];
      var seg, paddr := SegmentLookup(Get(a, kind), page, write, frame);
      var i := ChooseSlot();
      tlb[i] := Entry(true, page, paddr, !readonly);
      assert tlb[..] == s.tlb[i := tlb[i]];
      spaces := spaces[current.value := Put(a, kind, seg)];
      used := if paddr == frame then used + {frame} else used;
      FaultKeeps(s, View(), page, write, frame);
      r := Done;
    }

    /** as_activate after the current process's address space has become `a`. */
    method Activate(a: Option<nat>)
      requires Valid() && (a.Some? ==> a.value in spaces)
      modifies this, tlb
      ensures Valid() && StepActivate(old(View()), View(), a)
    {
      hide EntryOk, FramesOk, SpaceOk;
      ghost var s := View();
      current := a;
      if a == None {
        ActivateKeeps(s, View(), a);
        return;
      }
      owner := a;
      var i := 0;
      while i < NUM_TLB
        invariant i <= NUM_TLB && spaces == s.spaces && current == a && owner == a && nextVictim == s.next
              && used == s.used
        invariant forall j :: 0 <= j < i ==> tlb[j] == InvalidTlb(s.tlb)[j]
      {
        tlb[i] := Entry(false, (0x80000 + i) * PAGE_SIZE, 0, false);
        i := i + 1;
      }
      assert tlb[..] == InvalidTlb(s.tlb);
      ActivateKeeps(s, View(), a);
    }

    /** as_define_region: 0, EUNIMP, or a failed assertion when the region has no pages. */
    method AsDefineRegion(id: nat, vaddr: nat, sz: nat) returns (r: Defined)
      requires Valid() && id in spaces && vaddr < WORD && sz < WORD
      modifies this
      ensures Valid() && r == DefineRegion(old(spaces)[id], vaddr, sz)
      ensures r.Ok? ==> StepDefine(old(View()), View(), id, vaddr, sz)
      ensures !r.Ok? ==> View() == old(View())
    {
      hide EntryOk, FramesOk, SpaceOk;
      ghost var s := View();
      var a := spaces[id];
      var size := (sz + vaddr % PAGE_SIZE) % WORD;
      var base := vaddr - vaddr % PAGE_SIZE;
      size := (size + PAGE_SIZE - 1) % WORD;
      size := size - size % PAGE_SIZE;
      var npages := size / PAGE_SIZE;
      if a.code.vbase == 0 {
        if npages == 0 {
          return Panic;
        }
        var ptable := Prepare(npages);
        a := a.(code := Segment(base, npages, ptable));
      } else if a.data.vbase == 0 {
        if npages == 0 {
          return Panic;
        }
        var ptable := Prepare(npages);
        a := a.(data := Segment(base, npages, ptable));
      } else {
        return TooMany;
      }
      spaces := spaces[id := a];
      DefineKeeps(s, View(), id, vaddr, sz);
      r := Ok(a);
    }
  }

  lemma SegAligned(a: Space, k: Kind)
    requires SpaceOk(a)
    ensures Get(a, k).vbase % PAGE_SIZE == 0
  {
  }
}
