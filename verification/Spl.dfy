/**
 * Interrupt priority and spinlocks (kern/thread/spl.c, kern/thread/spinlock.c): the count
 * that each thread keeps of its reasons to have interrupts off, across context switches.
 */
module Spl {
  import opened Common

  const IPL_NONE := 0
  const IPL_HIGH := 1

  // ----- the spl functions, on the current thread and its CPU -----

  /** t_curspl, t_iplhigh_count and the CPU's interrupt state. */
  datatype Ipl = Ipl(high: bool, count: int, irqOff: bool)

  function Raise(i: Ipl): Ipl {
    i.(count := i.count + 1, irqOff := i.irqOff || i.count == 0)
  }

  function Lower(i: Ipl): Ipl {
    i.(count := i.count - 1, irqOff := i.irqOff && i.count != 1)
  }

  function SetSpl(i: Ipl, high: bool): Ipl {
    if high == i.high then i else if high then Raise(i).(high := true) else Lower(i.(high := false))
  }

  /** Interrupts are off exactly when there is a reason, and a high level is one. */
  predicate Consistent(i: Ipl) {
    i.count >= (if i.high then 1 else 0) && (i.irqOff <==> i.count > 0)
  }

  /** A reason added and taken away, in either order, leaves no trace. */
  lemma RaiseLower(i: Ipl)
    requires Consistent(i)
    ensures Consistent(Raise(i)) && Raise(i).irqOff && Lower(Raise(i)) == i
    ensures i.count > (if i.high then 1 else 0) ==> Consistent(Lower(i)) && Raise(Lower(i)) == i
  {
  }

  /**
   * What splx is for: the level is as asked, a high level means interrupts are off, a low one with
   * no other reason that they are on, and setting the old level again restores everything.
   */
  lemma SplxRestores(i: Ipl, high: bool)
    requires Consistent(i)
    ensures var j := SetSpl(i, high);
            && Consistent(j) && j.high == high && (high ==> j.irqOff) && SetSpl(j, i.high) == i
            && j.count - i.count == (if high then 1 else 0) - (if i.high then 1 else 0)
  {
  }

  class Current {
    var curspl: int
    var iplhighCount: int
    var irqOff: bool

    ghost predicate Valid()
      reads this
    {
      curspl == IPL_NONE || curspl == IPL_HIGH
    }

    ghost function View(): Ipl
      reads this
    {
      Ipl(curspl == IPL_HIGH, iplhighCount, irqOff)
    }

    method SplRaise(oldspl: int, newspl: int)
      requires oldspl == IPL_NONE && newspl == IPL_HIGH
      modifies this`iplhighCount, this`irqOff
      ensures View() == Raise(old(View()))
    {
      if iplhighCount == 0 {
        irqOff := true;
      }
      iplhighCount := iplhighCount + 1;
    }

    method SplLower(oldspl: int, newspl: int)
      requires oldspl == IPL_HIGH && newspl == IPL_NONE
      modifies this`iplhighCount, this`irqOff
      ensures View() == Lower(old(View()))
    {
      iplhighCount := iplhighCount - 1;
      if iplhighCount == 0 {
        irqOff := false;
      }
    }

    /** Sets the level and returns the previous one, so that splx(splx(s)) restores it. */
    method Splx(spl: int) returns (ret: int)
      requires Valid() && (spl == IPL_NONE || spl == IPL_HIGH)
      modifies this
      ensures Valid() && ret == old(curspl) && View() == SetSpl(old(View()), spl == IPL_HIGH)
      ensures curspl == spl && iplhighCount == old(iplhighCount) + (spl - old(curspl))
    {
      if curspl < spl {
        SplRaise(curspl, spl);
        ret := curspl;
        curspl := spl;
      } else if curspl > spl {
        ret := curspl;
        curspl := spl;
        SplLower(ret, spl);
      } else {
        ret := spl;
      }
    }
  }

  // ----- the step system -----

  datatype Lock = RunQueue(cpu: nat) | Other(id: nat)

  datatype Thread = Thread(high: bool, count: int, inTrap: bool)

  /** `want` is the spinlock the CPU spins for, its thread having already raised its count. */
  datatype Cpu = Cpu(cur: Tid, irqOff: bool, want: Option<Lock>)

  datatype State = State(threads: map<Tid, Thread>, cpus: seq<Cpu>, holder: map<Lock, nat>)

  function HeldBy(holder: map<Lock, nat>, c: nat): set<Lock> {
    set x | x in holder && holder[x] == c
  }

  predicate Here(s: State, c: nat) {
    c < |s.cpus| && s.cpus[c].cur in s.threads
  }

  function Look(s: State, c: nat): Ipl
    requires Here(s, c)
  {
    var t := s.threads[s.cpus[c].cur];
    Ipl(t.high, t.count, s.cpus[c].irqOff)
  }

  function Put(s: State, c: nat, i: Ipl): State
    requires Here(s, c)
  {
    var t := s.cpus[c].cur;
    s.(threads := s.threads[t := s.threads[t].(high := i.high, count := i.count)],
       cpus := s.cpus[c := s.cpus[c].(irqOff := i.irqOff)])
  }

  ghost predicate OffCpu(s: State, t: Tid) {
    t in s.threads && forall c :: 0 <= c < |s.cpus| ==> s.cpus[c].cur != t
  }

  /** spinlock_acquire up to the spin loop; a second acquisition by the holding CPU would panic. */
  predicate StepWant(s: State, s': State, c: nat, x: Lock) {
    && Here(s, c) && s.cpus[c].want.None? && x !in HeldBy(s.holder, c)
    && var s1 := Put(s, c, Raise(Look(s, c)));
       s' == s1.(cpus := s1.cpus[c := s1.cpus[c].(want := Some(x))])
  }

  predicate StepGet(s: State, s': State, c: nat, x: Lock) {
    && c < |s.cpus| && s.cpus[c].want == Some(x) && x !in s.holder
    && s' == s.(holder := s.holder[x := c], cpus := s.cpus[c := s.cpus[c].(want := None)])
  }

  predicate StepRelease(s: State, s': State, c: nat, x: Lock) {
    && Here(s, c) && s.cpus[c].want.None? && x in HeldBy(s.holder, c)
    && s' == Put(s, c, Lower(Look(s, c))).(holder := s.holder - {x})
  }

  /** splhigh, spl0 and splx; an interrupt handler does not lower the level it entered with. */
  predicate StepSplx(s: State, s': State, c: nat, high: bool) {
    && Here(s, c) && s.cpus[c].want.None? && (s.threads[s.cpus[c].cur].inTrap ==> high)
    && s' == Put(s, c, SetSpl(Look(s, c), high))
  }

  /** thread_create and the extra count that thread_fork adds for the run-queue lock. */
  predicate StepFork(s: State, s': State, t: Tid) {
    t !in s.threads && s' == s.(threads := s.threads[t := Thread(true, 1 + 1, false)])
  }

  /** The switch itself: made at splhigh and under the CPU's run-queue lock alone. */
  ghost predicate StepSwitch(s: State, s': State, c: nat, next: Tid) {
    && Here(s, c) && s.cpus[c].want.None? && s.threads[s.cpus[c].cur].high
    && HeldBy(s.holder, c) == {RunQueue(c)}
    && (OffCpu(s, next) || next == s.cpus[c].cur)
    && s' == s.(cpus := s.cpus[c := s.cpus[c].(cur := next)])
  }

  /** An interrupt: the processor turns interrupts off and trap entry adjusts the record. */
  predicate StepTrap(s: State, s': State, c: nat) {
    && Here(s, c) && !s.cpus[c].irqOff
    && var t := s.cpus[c].cur;
       s' == s.(threads := s.threads[t := Thread(true, s.threads[t].count + 1, true)],
                cpus := s.cpus[c := s.cpus[c].(irqOff := true)])
  }

  /** Return from the handler, which has released every spinlock it took. */
  predicate StepTrapReturn(s: State, s': State, c: nat) {
    && Here(s, c) && s.threads[s.cpus[c].cur].inTrap && s.cpus[c].want.None? && HeldBy(s.holder, c) == {}
    && var t := s.cpus[c].cur;
       s' == s.(threads := s.threads[t := Thread(false, s.threads[t].count - 1, false)],
                cpus := s.cpus[c := s.cpus[c].(irqOff := false)])
  }

  ghost predicate StepDestroy(s: State, s': State, t: Tid) {
    OffCpu(s, t) && s' == s.(threads := s.threads - {t})
  }

  datatype Label =
    | Want(c: nat, x: Lock) | Get(c: nat, x: Lock) | Release(c: nat, x: Lock) | Splx(c: nat, high: bool) | Fork(t: Tid)
    | Switch(c: nat, next: Tid) | Trap(c: nat) | TrapReturn(c: nat) | Destroy(t: Tid)

  ghost predicate Step(s: State, l: Label, s': State) {
    match l
    case Want(c, x) => StepWant(s, s', c, x)
    case Get(c, x) => StepGet(s, s', c, x)
    case Release(c, x) => StepRelease(s, s', c, x)
    case Splx(c, high) => StepSplx(s, s', c, high)
    case Fork(t) => StepFork(s, s', t)
    case Switch(c, next) => StepSwitch(s, s', c, next)
    case Trap(c) => StepTrap(s, s', c)
    case TrapReturn(c) => StepTrapReturn(s, s', c)
    case Destroy(t) => StepDestroy(s, s', t)
  }

  // ----- the invariant -----

  function One(b: bool): int {
    if b then 1 else 0
  }

  /** A running thread is charged for the spinlocks of its CPU; interrupts are off exactly when it has a reason. */
  ghost predicate Charged(s: State, c: nat)
    requires c < |s.cpus|
  {
    && Here(s, c)
    && var cpu, t := s.cpus[c], s.threads[s.cpus[c].cur];
       && t.count == One(t.high) + |HeldBy(s.holder, c)| + One(cpu.want.Some?)
       && (cpu.irqOff <==> t.count > 0)
       && (t.inTrap ==> t.high)
  }

  /** A thread that is not running has its level high and is charged for the run-queue lock it will release. */
  ghost predicate Parked(s: State, t: Tid)
    requires t in s.threads
  {
    s.threads[t].high && s.threads[t].count == 1 + 1
  }

  ghost predicate OwnThread(s: State, c: nat, d: nat)
    requires c < |s.cpus| && d < |s.cpus|
  {
    s.cpus[c].cur == s.cpus[d].cur ==> c == d
  }

  ghost predicate Inv(s: State) {
    && (forall c :: 0 <= c < |s.cpus| ==> Charged(s, c))
    && (forall c, d :: 0 <= c < |s.cpus| && 0 <= d < |s.cpus| ==> OwnThread(s, c, d))
    && (forall t :: OffCpu(s, t) ==> Parked(s, t))
  }

  lemma HeldMore(holder: map<Lock, nat>, x: Lock, c: nat, d: nat)
    requires x !in holder
    ensures HeldBy(holder[x := c], d) == if d == c then HeldBy(holder, d) + {x} else HeldBy(holder, d)
  {
  }

  lemma HeldLess(holder: map<Lock, nat>, x: Lock, c: nat, d: nat)
    requires x in holder && holder[x] == c
    ensures HeldBy(holder - {x}, d) == if d == c then HeldBy(holder, d) - {x} else HeldBy(holder, d)
  {
  }

  /** A step of CPU c that keeps its thread running and touches no other CPU and no other thread. */
  ghost predicate Local(s: State, s': State, c: nat) {
    && Here(s, c) && |s'.cpus| == |s.cpus| && s'.threads.Keys == s.threads.Keys && s'.cpus[c].cur == s.cpus[c].cur
    && (forall d :: 0 <= d < |s.cpus| && d != c ==>
         s'.cpus[d] == s.cpus[d] && HeldBy(s'.holder, d) == HeldBy(s.holder, d))
    && (forall t :: t in s.threads && t != s.cpus[c].cur ==> s'.threads[t] == s.threads[t])
  }

  lemma LocalKeeps(s: State, s': State, c: nat)
    requires Inv(s) && Local(s, s', c) && Charged(s', c)
    ensures Inv(s')
  {
    forall d | 0 <= d < |s'.cpus| ensures Charged(s', d) { assert Charged(s, d) && OwnThread(s, c, d); }
    forall d, e | 0 <= d < |s'.cpus| && 0 <= e < |s'.cpus| ensures OwnThread(s', d, e) { assert OwnThread(s, d, e); }
    forall t | OffCpu(s', t) ensures Parked(s', t) {
      forall d | 0 <= d < |s.cpus| ensures s.cpus[d].cur != t { assert s'.cpus[d].cur != t; }
      assert OffCpu(s, t);
    }
  }

  lemma WantKeeps(s: State, s': State, c: nat, x: Lock)
    requires Inv(s) && StepWant(s, s', c, x)
    ensures Inv(s')
  {
    assert Charged(s, c);
    LocalKeeps(s, s', c);
  }

  lemma GetCharged(s: State, s': State, c: nat, x: Lock)
    requires StepGet(s, s', c, x) && Charged(s, c)
    ensures Charged(s', c)
  {
    HeldMore(s.holder, x, c, c);
    assert x !in HeldBy(s.holder, c);
    hide HeldBy;
  }

  lemma GetKeeps(s: State, s': State, c: nat, x: Lock)
    requires Inv(s) && StepGet(s, s', c, x)
    ensures Inv(s')
  {
    hide HeldBy, Charged;
    assert Charged(s, c);
    GetCharged(s, s', c, x);
    forall d | 0 <= d < |s.cpus| && d != c ensures HeldBy(s'.holder, d) == HeldBy(s.holder, d) {
      HeldMore(s.holder, x, c, d);
    }
    assert Here(s, c) by { ChargedHere(s, c); }
    LocalKeeps(s, s', c);
  }

  lemma ChargedHere(s: State, c: nat)
    requires c < |s.cpus| && Charged(s, c)
    ensures Here(s, c)
  {
  }

  lemma ReleaseKeeps(s: State, s': State, c: nat, x: Lock)
    requires Inv(s) && StepRelease(s, s', c, x)
    ensures Inv(s')
  {
    assert Charged(s, c);
    forall d | 0 <= d < |s.cpus|
      ensures HeldBy(s'.holder, d) == HeldBy(s.holder, d) - if d == c then {x} else {}
    {
      HeldLess(s.holder, x, c, d);
    }
    LocalKeeps(s, s', c);
  }

  lemma SplxKeeps(s: State, s': State, c: nat, high: bool)
    requires Inv(s) && StepSplx(s, s', c, high)
    ensures Inv(s')
  {
    assert Charged(s, c);
    LocalKeeps(s, s', c);
  }

  /** What trap entry and exit assert about the record of the interrupted thread. */
  lemma TrapKeeps(s: State, s': State, c: nat)
    requires Inv(s) && StepTrap(s, s', c)
    ensures Inv(s') && !Look(s, c).high && Look(s, c).count == 0 && HeldBy(s.holder, c) == {}
  {
    assert Charged(s, c);
    LocalKeeps(s, s', c);
  }

  lemma TrapReturnKeeps(s: State, s': State, c: nat)
    requires Inv(s) && StepTrapReturn(s, s', c)
    ensures Inv(s') && Look(s, c).high && Look(s, c).count == 1
  {
    assert Charged(s, c);
    LocalKeeps(s, s', c);
  }

  lemma ForkKeeps(s: State, s': State, t: Tid)
    requires Inv(s) && StepFork(s, s', t)
    ensures Inv(s')
  {
    forall d | 0 <= d < |s'.cpus| ensures Charged(s', d) { assert Charged(s, d); }
    forall d, e | 0 <= d < |s'.cpus| && 0 <= e < |s'.cpus| ensures OwnThread(s', d, e) { assert OwnThread(s, d, e); }
    forall u | OffCpu(s', u) ensures Parked(s', u) { assert u != t ==> OffCpu(s, u); }
  }

  lemma DestroyKeeps(s: State, s': State, t: Tid)
    requires Inv(s) && StepDestroy(s, s', t)
    ensures Inv(s')
  {
    forall d | 0 <= d < |s'.cpus| ensures Charged(s', d) { assert Charged(s, d); }
    forall d, e | 0 <= d < |s'.cpus| && 0 <= e < |s'.cpus| ensures OwnThread(s', d, e) { assert OwnThread(s, d, e); }
    forall u | OffCpu(s', u) ensures Parked(s', u) { assert OffCpu(s, u); }
  }

  /** The lock changes hands with the CPU: the next thread is charged for exactly the one lock that is held. */
  lemma SwitchKeeps(s: State, s': State, c: nat, next: Tid)
    requires Inv(s) && StepSwitch(s, s', c, next)
    ensures Inv(s')
  {
    assert Charged(s, c);
    forall d | 0 <= d < |s'.cpus| ensures Charged(s', d) { assert Charged(s, d); }
    forall d, e | 0 <= d < |s'.cpus| && 0 <= e < |s'.cpus| ensures OwnThread(s', d, e) {
      assert OwnThread(s, d, e) && OwnThread(s, c, d) && OwnThread(s, c, e);
    }
    forall u | OffCpu(s', u) ensures Parked(s', u) {
      if u != s.cpus[c].cur {
        forall d | 0 <= d < |s.cpus| ensures s.cpus[d].cur != u { assert s'.cpus[d].cur != u; }
        assert OffCpu(s, u);
      }
    }
  }

  lemma StepKeeps(s: State, l: Label, s': State)
    requires Inv(s) && Step(s, l, s')
    ensures Inv(s')
  {
    hide Inv, StepWant, StepGet, StepRelease, StepSplx, StepFork, StepSwitch, StepTrap, StepTrapReturn, StepDestroy;
    match l
    case Want(c, x) => WantKeeps(s, s', c, x);
    case Get(c, x) => GetKeeps(s, s', c, x);
    case Release(c, x) => ReleaseKeeps(s, s', c, x);
    case Splx(c, high) => SplxKeeps(s, s', c, high);
    case Fork(t) => ForkKeeps(s, s', t);
    case Switch(c, next) => SwitchKeeps(s, s', c, next);
    case Trap(c) => TrapKeeps(s, s', c);
    case TrapReturn(c) => TrapReturnKeeps(s, s', c);
    case Destroy(t) => DestroyKeeps(s, s', t);
  }

  /** Every CPU starts with interrupts off, in a thread of its own whose level is high. */
  ghost predicate Init(s: State) {
    && s.holder == map[]
    && (forall c, d :: 0 <= c < |s.cpus| && 0 <= d < |s.cpus| ==> OwnThread(s, c, d))
    && (forall c :: 0 <= c < |s.cpus| ==>
          Here(s, c) && s.threads[s.cpus[c].cur] == Thread(true, 1, false) && s.cpus[c].irqOff
              && s.cpus[c].want == None)
    && (forall t :: t in s.threads ==> !OffCpu(s, t))
  }

  ghost predicate IsRun(states: seq<State>, labels: seq<Label>) {
    && |states| == |labels| + 1 && Init(states[0])
    && forall i :: 0 <= i < |labels| ==> Step(states[i], labels[i], states[i + 1])
  }

  lemma InitInv(s: State)
    requires Init(s)
    ensures Inv(s)
  {
  }

  lemma {:induction false} RunInv(states: seq<State>, labels: seq<Label>, n: nat)
    requires IsRun(states, labels) && n <= |labels|
    ensures Inv(states[n])
  {
    hide Inv, Init, Step;
    if n == 0 {
      InitInv(states[0]);
    } else {
      RunInv(states, labels, n - 1);
      StepKeeps(states[n - 1], labels[n - 1], states[n]);
    }
  }

  /**
   * In every run: a running thread's count is its level plus its CPU's spinlocks, held or
   * awaited, and interrupts are off exactly when it is positive; any other thread counts its
   * level and the one run-queue lock it will release. The assertions on trap entry and exit
   * hold, and the thread that releases a lock always has a count to give back.
   */
  lemma RunBalanced(states: seq<State>, labels: seq<Label>, n: nat)
    requires IsRun(states, labels) && n <= |labels|
    ensures forall c :: 0 <= c < |states[n].cpus| ==> Charged(states[n], c)
    ensures forall t :: OffCpu(states[n], t) ==> Parked(states[n], t)
    ensures n < |labels| && labels[n].Trap? ==>
              Here(states[n], labels[n].c) && Look(states[n], labels[n].c) == Ipl(false, 0, false)
    ensures n < |labels| && labels[n].TrapReturn? ==>
              Here(states[n], labels[n].c) && Look(states[n], labels[n].c) == Ipl(true, 1, true)
    ensures n < |labels| && labels[n].Release? ==>
              Here(states[n], labels[n].c) && Look(states[n], labels[n].c).count > 0
  {
    hide Init;
    RunInv(states, labels, n);
    if n < |labels| && (labels[n].Trap? || labels[n].TrapReturn? || labels[n].Release?) {
      assert Step(states[n], labels[n], states[n + 1]);
      assert Charged(states[n], labels[n].c);
    }
  }

  /** The spinlocks that CPU c got and has not released since. */
  function Got(labels: seq<Label>, c: nat): set<Lock> {
    if labels == [] then {}
    else
      var before := Got(labels[..|labels| - 1], c);
      match labels[|labels| - 1]
      case Get(d, x) => if d == c then before + {x} else before
      case Release(d, x) => if d == c then before - {x} else before
      case _ => before
  }

  /** The spinlock that CPU c has asked for and not got yet. */
  function Asked(labels: seq<Label>, c: nat): Option<Lock> {
    if labels == [] then None
    else
      match labels[|labels| - 1]
      case Want(d, x) => if d == c then Some(x) else Asked(labels[..|labels| - 1], c)
      case Get(d, x) => if d == c then None else Asked(labels[..|labels| - 1], c)
      case _ => Asked(labels[..|labels| - 1], c)
  }

  lemma LocksStep(s: State, l: Label, s': State, labels: seq<Label>, c: nat)
    requires Step(s, l, s') && c < |s.cpus| && Got(labels, c) == HeldBy(s.holder, c)
    requires Asked(labels, c) == s.cpus[c].want
    ensures c < |s'.cpus| && Got(labels + [l], c) == HeldBy(s'.holder, c) && Asked(labels + [l], c) == s'.cpus[c].want
  {
    hide Raise, Lower, SetSpl;
    assert (labels + [l])[..|labels|] == labels;
    if l.Get? {
      HeldMore(s.holder, l.x, l.c, c);
    } else if l.Release? {
      HeldLess(s.holder, l.x, l.c, c);
    }
  }

  predicate OfCpu(l: Label, c: nat) { !l.Fork? && !l.Destroy? && l.c == c }

  /** A CPU that spins for a lock does nothing else. */
  lemma SpinsOnly(s: State, l: Label, s': State, c: nat)
    requires Inv(s) && Step(s, l, s') && OfCpu(l, c) && c < |s.cpus| && s.cpus[c].want.Some?
    ensures l == Get(c, s.cpus[c].want.value)
  {
    assert Charged(s, c);
    hide Raise, Lower, SetSpl;
  }

  /** And it never spins for a lock that it holds itself. */
  lemma NotAgain(s: State, l: Label, s': State, c: nat)
    requires Step(s, l, s') && c < |s.cpus|
    requires s.cpus[c].want.Some? ==> s.cpus[c].want.value !in HeldBy(s.holder, c)
    ensures c < |s'.cpus| && (s'.cpus[c].want.Some? ==> s'.cpus[c].want.value !in HeldBy(s'.holder, c))
  {
    hide Raise, Lower, SetSpl;
  }

  /** In every run, a spinlock is held by the CPU that got it and has not released it, and by no other. */
  lemma {:induction false} RunLocks(states: seq<State>, labels: seq<Label>, n: nat, c: nat)
    requires IsRun(states, labels) && n <= |labels| && c < |states[0].cpus|
    ensures c < |states[n].cpus| && HeldBy(states[n].holder, c) == Got(labels[..n], c)
    ensures states[n].cpus[c].want == Asked(labels[..n], c)
    ensures n < |labels| && labels[n].Get? ==>
              forall d :: 0 <= d < |states[n].cpus| ==> labels[n].x !in HeldBy(states[n].holder, d)
    ensures states[n].cpus[c].want.Some? ==> states[n].cpus[c].want.value !in HeldBy(states[n].holder, c)
    ensures n < |labels| && states[n].cpus[c].want.Some? && OfCpu(labels[n], c) ==>
              labels[n] == Get(c, states[n].cpus[c].want.value)
  {
    hide HeldBy, Got, Asked, Step;
    if n == 0 {
      assert labels[..0] == [];
      NothingGot(states[0], c);
    } else {
      RunLocks(states, labels, n - 1, c);
      assert labels[..n] == labels[..n - 1] + [labels[n - 1]];
      LocksStep(states[n - 1], labels[n - 1], states[n], labels[..n - 1], c);
    }
    if n > 0 { NotAgain(states[n - 1], labels[n - 1], states[n], c); }
    if n < |labels| {
      if labels[n].Get? { FreeWhenGot(states[n], labels[n], states[n + 1]); }
      if OfCpu(labels[n], c) && states[n].cpus[c].want.Some? {
        RunInv(states, labels, n);
        SpinsOnly(states[n], labels[n], states[n + 1], c);
      }
    }
  }

  lemma NothingGot(s: State, c: nat)
    requires Init(s) && c < |s.cpus|
    ensures HeldBy(s.holder, c) == Got([], c) && s.cpus[c].want == Asked([], c)
  {
  }

  lemma FreeWhenGot(s: State, l: Label, s': State)
    requires Step(s, l, s') && l.Get?
    ensures forall d :: 0 <= d < |s.cpus| ==> l.x !in HeldBy(s.holder, d)
  {
  }

  /** The current thread of the CPU that steps. */
  predicate Steps(s: State, l: Label, t: Tid) {
    !l.Fork? && !l.Destroy? && l.c < |s.cpus| && s.cpus[l.c].cur == t
  }

  /**
   * In every run: splx gives the current thread the level it names, an interrupt raises it and
   * the return from the interrupt lowers it, and nothing else changes any thread's level; after
   * splhigh interrupts are off. A thread becomes current only by a switch.
   */
  lemma RunLevels(states: seq<State>, labels: seq<Label>, n: nat, t: Tid)
    requires IsRun(states, labels) && n < |labels| && t in states[n].threads && t in states[n + 1].threads
    ensures var s, l, s' := states[n], labels[n], states[n + 1];
            && s'.threads[t].high == (if !Steps(s, l, t) then s.threads[t].high
                                      else match l
                                           case Splx(_, high) => high
                                           case Trap(_) => true
                                           case TrapReturn(_) => false
                                           case _ => s.threads[t].high)
            && s'.threads[t].inTrap == (if Steps(s, l, t) && l.Trap? then true
                                        else if Steps(s, l, t) && l.TrapReturn? then false
                                        else s.threads[t].inTrap)
            && (l.Splx? && l.high ==> l.c < |s'.cpus| && s'.cpus[l.c].irqOff)
            && (l.Fork? ==> l.t in s'.threads && s'.threads[l.t].high && !s'.threads[l.t].inTrap)
            && |s'.cpus| == |s.cpus|
            && (forall c :: 0 <= c < |s.cpus| ==>
                  s'.cpus[c].cur == if l.Switch? && l.c == c then l.next else s.cpus[c].cur)
  {
    RunInv(states, labels, n);
    RunInv(states, labels, n + 1);
    var s, l, s' := states[n], labels[n], states[n + 1];
    assert Step(s, l, s');
    hide IsRun;
    if l.Splx? {
      assert Charged(s, l.c) && Charged(s', l.c);
    }
    hide Inv;
  }

  /** At splhigh and under the run-queue lock alone, a CPU can switch to any thread that is not running. */
  lemma CanSwitch(s: State, c: nat, next: Tid)
    requires Inv(s) && Here(s, c) && s.cpus[c].want.None? && OffCpu(s, next)
    requires s.threads[s.cpus[c].cur].high && HeldBy(s.holder, c) == {RunQueue(c)}
    ensures exists s' :: StepSwitch(s, s', c, next) && s'.cpus[c].cur == next
  {
    assert StepSwitch(s, s.(cpus := s.cpus[c := s.cpus[c].(cur := next)]), c, next);
  }
}
