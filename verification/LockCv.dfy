/**
 * Sleep locks and condition variables (kern/thread/synch.c) as a step system for any number
 * of threads, locks and CVs. Each acquisition and release of a spinlock, and each access
 * under one, is a step of its own.
 */
module LockCv {
  import opened Common

  datatype Chan = LockChan(lock: nat) | CvChan(cv: nat)

  /** The spinlock inside a lock, the one inside a CV, and the one inside a wait channel. */
  datatype Spin = InLock(lock: nat) | InCv(cv: nat) | InChan(chan: Chan)

  /**
   * Where a thread is: in lock_acquire (A; `woken` marks a thread woken from the lock's
   * channel), in lock_release (R; `cv` is set when cv_wait called it), in cv_wait (W), or in
   * cv_signal and cv_broadcast (S).
   */
  datatype Pc =
    | Outside
    | AEnter(l: nat, woken: bool) | ATest(l: nat, woken: bool) | ABridge(l: nat) | ABoth(l: nat) | ASleepy(l: nat)
    | AAsleep(l: nat) | ATake(l: nat, woken: bool) | ADone(l: nat)
    | REnter(l: nat, cv: Option<nat>) | RClear(l: nat, cv: Option<nat>) | RWake(l: nat, cv: Option<nat>)
    | RPop(l: nat, cv: Option<nat>) | RDone(l: nat, cv: Option<nat>)
    | WEnter(v: nat, l: nat) | WBridge(v: nat, l: nat) | WBoth(v: nat, l: nat) | WSleepy(v: nat, l: nat)
    | WAsleep(v: nat, l: nat)
    | SEnter(v: nat, l: nat, all: bool) | SWake(v: nat, l: nat, all: bool) | SPop(v: nat, l: nat, all: bool)
    | SDone(v: nat, l: nat)

  /** `owner` is lk_owner, with NULL left out; `held` says which thread holds which spinlock. */
  datatype State = State(locked: set<nat>, owner: map<nat, Tid>, held: map<Spin, Tid>, chan: map<Chan, seq<Tid>>,
      pc: seq<Pc>)

  function Queue(s: State, c: Chan): seq<Tid> {
    if c in s.chan then s.chan[c] else []
  }

  // ----- program order -----

  /** The spinlock a thread is about to take, and where it then is. */
  function Wants(pc: Pc): Option<(Spin, Pc)> {
    match pc
    case AEnter(l, woken) => Some((InLock(l), ATest(l, woken)))
    case ABridge(l) => Some((InChan(LockChan(l)), ABoth(l)))
    case REnter(l, cv) => Some((InLock(l), RClear(l, cv)))
    case RWake(l, cv) => Some((InChan(LockChan(l)), RPop(l, cv)))
    case WEnter(v, l) => Some((InCv(v), REnter(l, Some(v))))
    case WBridge(v, l) => Some((InChan(CvChan(v)), WBoth(v, l)))
    case SEnter(v, l, all) => Some((InCv(v), SWake(v, l, all)))
    case SWake(v, l, all) => Some((InChan(CvChan(v)), SPop(v, l, all)))
    case _ => None
  }

  /** The spinlock a thread is about to release, and where it then is. */
  function Frees(pc: Pc): Option<(Spin, Pc)> {
    match pc
    case ABoth(l) => Some((InLock(l), ASleepy(l)))
    case ADone(l) => Some((InLock(l), Outside))
    case RDone(l, cv) => Some((InLock(l), if cv.Some? then WBridge(cv.value, l) else Outside))
    case WBoth(v, l) => Some((InCv(v), WSleepy(v, l)))
    case SDone(v, l) => Some((InCv(v), Outside))
    case _ => None
  }

  function SleepsNext(pc: Pc): Option<(Chan, Pc)> {
    match pc
    case ASleepy(l) => Some((LockChan(l), AAsleep(l)))
    case WSleepy(v, l) => Some((CvChan(v), WAsleep(v, l)))
    case _ => None
  }

  function PopsNext(pc: Pc): Option<(Chan, Pc)> {
    match pc
    case RPop(l, cv) => Some((LockChan(l), RDone(l, cv)))
    case SPop(v, l, _) => Some((CvChan(v), SDone(v, l)))
    case _ => None
  }

  datatype Label =
    | CallAcquire(t: Tid, l: nat) | CallRelease(t: Tid, l: nat) | CallWait(t: Tid, v: nat, l: nat)
    | CallSignal(t: Tid, v: nat, l: nat, all: bool)
    | Grab(t: Tid) | Free(t: Tid) | Test(t: Tid) | TakeLock(t: Tid, l: nat) | ClearLock(t: Tid, l: nat, cv: Option<nat>)
    | Sleep(t: Tid, c: Chan) | Pop(t: Tid, c: Chan, woken: seq<Tid>)

  function Go(s: State, t: Tid, pc: Pc): State
    requires t < |s.pc|
  {
    s.(pc := s.pc[t := pc])
  }

  predicate Holds(s: State, t: Tid, l: nat) {
    l in s.owner && s.owner[l] == t
  }

  predicate StepGrab(s: State, s': State, t: Tid)
    requires t < |s.pc|
  {
    && Wants(s.pc[t]).Some?
    && var (x, pc) := Wants(s.pc[t]).value;
       x !in s.held && s' == Go(s, t, pc).(held := s.held[x := t])
  }

  predicate StepFree(s: State, s': State, t: Tid)
    requires t < |s.pc|
  {
    && Frees(s.pc[t]).Some?
    && var (x, pc) := Frees(s.pc[t]).value;
       s' == Go(s, t, pc).(held := s.held - {x})
  }

  predicate StepTest(s: State, s': State, t: Tid)
    requires t < |s.pc|
  {
    && s.pc[t].ATest?
    && var l := s.pc[t].l;
       s' == Go(s, t, if l in s.locked then ABridge(l) else ATake(l, s.pc[t].woken))
  }

  predicate StepTake(s: State, s': State, t: Tid, l: nat)
    requires t < |s.pc|
  {
    s.pc[t].ATake? && s.pc[t].l == l && s' == Go(s, t, ADone(l)).(locked := s.locked + {l}, owner := s.owner[l := t])
  }

  predicate StepClear(s: State, s': State, t: Tid, l: nat, cv: Option<nat>)
    requires t < |s.pc|
  {
    s.pc[t] == RClear(l, cv) && s' == Go(s, t, RWake(l, cv)).(locked := s.locked - {l}, owner := s.owner - {l})
  }

  predicate StepSleep(s: State, s': State, t: Tid, c: Chan)
    requires t < |s.pc|
  {
    && SleepsNext(s.pc[t]).Some? && SleepsNext(s.pc[t]).value.0 == c
    && s' == Go(s, t, SleepsNext(s.pc[t]).value.1).(chan := s.chan[c := Queue(s, c) + [t]],
                                                     held := s.held - {InChan(c)})
  }

  /** A woken thread takes the lock, for the first time or after a wait. */
  function Awake(pc: Pc): Pc {
    match pc
    case AAsleep(l) => AEnter(l, true)
    case WAsleep(_, l) => AEnter(l, false)
    case _ => pc
  }

  function WakeThese(pcs: seq<Pc>, woken: seq<Tid>): (r: seq<Pc>)
    ensures |r| == |pcs| && forall i :: 0 <= i < |pcs| ==> r[i] == if i in woken then Awake(pcs[i]) else pcs[i]
  {
    seq(|pcs|, i requires 0 <= i < |pcs| => if i in woken then Awake(pcs[i]) else pcs[i])
  }

  /** wchan_wakeone or wchan_wakeall: the first sleeper, or all of them, if there are any. */
  predicate StepPop(s: State, s': State, t: Tid, c: Chan, woken: seq<Tid>)
    requires t < |s.pc|
  {
    && PopsNext(s.pc[t]).Some? && PopsNext(s.pc[t]).value.0 == c
    && var q := Queue(s, c);
       var n := if s.pc[t].SPop? && s.pc[t].all then |q| else if q == [] then 0 else 1;
       && woken == q[..n]
       && s' == s.(chan := s.chan[c := q[n..]], held := s.held - {InChan(c)},
                   pc := WakeThese(s.pc, woken)[t := PopsNext(s.pc[t]).value.1])
  }

  predicate Step(s: State, lab: Label, s': State) {
    && lab.t < |s.pc|
    && var t := lab.t;
       match lab
       case CallAcquire(_, l) => s.pc[t].Outside? && s' == Go(s, t, AEnter(l, false))
       case CallRelease(_, l) => s.pc[t].Outside? && Holds(s, t, l) && s' == Go(s, t, REnter(l, None))
       case CallWait(_, v, l) => s.pc[t].Outside? && Holds(s, t, l) && s' == Go(s, t, WEnter(v, l))
       case CallSignal(_, v, l, all) => s.pc[t].Outside? && Holds(s, t, l) && s' == Go(s, t, SEnter(v, l, all))
       case Grab(_) => StepGrab(s, s', t)
       case Free(_) => StepFree(s, s', t)
       case Test(_) => StepTest(s, s', t)
       case TakeLock(_, l) => StepTake(s, s', t, l)
       case ClearLock(_, l, cv) => StepClear(s, s', t, l, cv)
       case Sleep(_, c) => StepSleep(s, s', t, c)
       case Pop(_, c, woken) => StepPop(s, s', t, c, woken)
  }

  // ----- the invariant -----

  function CvSpin(cv: Option<nat>): set<Spin> {
    if cv.Some? then {InCv(cv.value)} else {}
  }

  /** The spinlocks a thread holds, by where it is. */
  function Spins(pc: Pc): set<Spin> {
    match pc
    case ATest(l, _) => {InLock(l)}
    case ABridge(l) => {InLock(l)}
    case ABoth(l) => {InLock(l), InChan(LockChan(l))}
    case ASleepy(l) => {InChan(LockChan(l))}
    case ATake(l, _) => {InLock(l)}
    case ADone(l) => {InLock(l)}
    case REnter(l, cv) => CvSpin(cv)
    case RClear(l, cv) => {InLock(l)} + CvSpin(cv)
    case RWake(l, cv) => {InLock(l)} + CvSpin(cv)
    case RPop(l, cv) => {InLock(l), InChan(LockChan(l))} + CvSpin(cv)
    case RDone(l, cv) => {InLock(l)} + CvSpin(cv)
    case WBridge(v, l) => {InCv(v)}
    case WBoth(v, l) => {InCv(v), InChan(CvChan(v))}
    case WSleepy(v, l) => {InChan(CvChan(v))}
    case SWake(v, _, _) => {InCv(v)}
    case SPop(v, _, _) => {InCv(v), InChan(CvChan(v))}
    case SDone(v, _) => {InCv(v)}
    case _ => {}
  }

  function SleepsOn(pc: Pc): Option<Chan> {
    match pc
    case AAsleep(l) => Some(LockChan(l))
    case WAsleep(v, _) => Some(CvChan(v))
    case _ => None
  }

  /** Calls that assert ownership of the lock, up to the point where it is given up. */
  function Relies(pc: Pc): Option<nat> {
    match pc
    case ADone(l) => Some(l)
    case REnter(l, _) => Some(l)
    case RClear(l, _) => Some(l)
    case WEnter(_, l) => Some(l)
    case SEnter(_, l, _) => Some(l)
    case SWake(_, l, _) => Some(l)
    case SPop(_, l, _) => Some(l)
    case SDone(_, l) => Some(l)
    case _ => None
  }

  ghost predicate SpinsOk(s: State, t: Tid)
    requires t < |s.pc|
  {
    forall x :: x in s.held && s.held[x] == t <==> x in Spins(s.pc[t])
  }

  predicate Asleep(s: State, c: Chan, t: Tid) {
    t in Queue(s, c)
  }

  ghost predicate ChansOk(s: State, t: Tid)
    requires t < |s.pc|
  {
    forall c :: Asleep(s, c, t) <==> SleepsOn(s.pc[t]) == Some(c)
  }

  predicate OwnerOk(s: State, t: Tid)
    requires t < |s.pc|
  {
    && (Relies(s.pc[t]).Some? ==> Holds(s, t, Relies(s.pc[t]).value))
    && (s.pc[t].ATake? || s.pc[t].RWake? || s.pc[t].RPop? || s.pc[t].RDone? ==> s.pc[t].l !in s.owner)
  }

  /** A wait channel's list: threads, each at most once. */
  predicate Sleepers(q: seq<Tid>, threads: nat) {
    Distinct(q) && forall i :: 0 <= i < |q| ==> q[i] < threads
  }

  ghost predicate Inv(s: State) {
    && s.locked == s.owner.Keys && (forall x :: x in s.held ==> s.held[x] < |s.pc|)
    && (forall c :: c in s.chan ==> Sleepers(s.chan[c], |s.pc|))
    && (forall t :: 0 <= t < |s.pc| ==> SpinsOk(s, t))
    && (forall t :: 0 <= t < |s.pc| ==> ChansOk(s, t))
    && (forall t :: 0 <= t < |s.pc| ==> OwnerOk(s, t))
  }

  // ----- spinlocks are held as the program order says -----

  /** Only t moves, or threads are woken, which hold no spinlock before or after. */
  ghost predicate OthersKeepSpins(s: State, s': State, t: Tid) {
    && t < |s.pc| == |s'.pc|
    && forall u :: 0 <= u < |s.pc| && u != t ==> Spins(s'.pc[u]) == Spins(s.pc[u])
  }

  lemma SameSpins(s: State, s': State, t: Tid)
    requires Inv(s) && OthersKeepSpins(s, s', t) && s'.held == s.held && Spins(s'.pc[t]) == Spins(s.pc[t])
    ensures forall u :: 0 <= u < |s'.pc| ==> SpinsOk(s', u)
  {
    hide Spins, ChansOk, OwnerOk;
    forall u | 0 <= u < |s'.pc| ensures SpinsOk(s', u) { assert SpinsOk(s, u); }
  }

  lemma GrabSpins(s: State, s': State, t: Tid, x: Spin)
    requires Inv(s) && OthersKeepSpins(s, s', t) && x !in s.held && s'.held == s.held[x := t]
    requires Spins(s'.pc[t]) == Spins(s.pc[t]) + {x}
    ensures forall u :: 0 <= u < |s'.pc| ==> SpinsOk(s', u)
  {
    hide Spins, ChansOk, OwnerOk;
    forall u | 0 <= u < |s'.pc| ensures SpinsOk(s', u) { assert SpinsOk(s, u); }
  }

  lemma FreeSpins(s: State, s': State, t: Tid, x: Spin)
    requires Inv(s) && OthersKeepSpins(s, s', t) && x in Spins(s.pc[t]) && s'.held == s.held - {x}
    requires Spins(s'.pc[t]) == Spins(s.pc[t]) - {x}
    ensures forall u :: 0 <= u < |s'.pc| ==> SpinsOk(s', u)
  {
    hide Spins, ChansOk, OwnerOk;
    assert SpinsOk(s, t);
    forall u | 0 <= u < |s'.pc| ensures SpinsOk(s', u) { assert SpinsOk(s, u); }
  }

  /** A spinlock has one holder. */
  lemma OneHolder(s: State, x: Spin, t: Tid, u: Tid)
    requires Inv(s) && t < |s.pc| && u < |s.pc| && x in Spins(s.pc[t]) && x in Spins(s.pc[u])
    ensures t == u
  {
    assert SpinsOk(s, t) && SpinsOk(s, u);
  }

  // ----- sleepers are on the channel they sleep on -----

  lemma SameChans(s: State, s': State, t: Tid)
    requires Inv(s) && t < |s.pc| && s'.chan == s.chan && |s'.pc| == |s.pc| && s'.pc == s.pc[t := s'.pc[t]]
    requires SleepsOn(s.pc[t]).None? && SleepsOn(s'.pc[t]).None?
    ensures forall u :: 0 <= u < |s'.pc| ==> ChansOk(s', u)
  {
    hide SpinsOk, OwnerOk;
    forall u, c | 0 <= u < |s'.pc| ensures Asleep(s', c, u) <==> SleepsOn(s'.pc[u]) == Some(c) {
      assert ChansOk(s, u);
      assert Asleep(s, c, u) <==> SleepsOn(s.pc[u]) == Some(c);
    }
  }

  lemma SleepChansAt(s: State, s': State, t: Tid, c0: Chan, u: Tid, c: Chan)
    requires t < |s.pc| && u < |s.pc| && StepSleep(s, s', t, c0) && ChansOk(s, u)
    ensures u < |s'.pc| && (Asleep(s', c, u) <==> SleepsOn(s'.pc[u]) == Some(c))
  {
    assert Asleep(s, c, u) <==> SleepsOn(s.pc[u]) == Some(c);
    assert Asleep(s, c0, u) <==> SleepsOn(s.pc[u]) == Some(c0);
  }

  lemma SleepDistinct(s: State, s': State, t: Tid, c0: Chan)
    requires t < |s.pc| && StepSleep(s, s', t, c0) && ChansOk(s, t)
    requires forall c :: c in s.chan ==> Sleepers(s.chan[c], |s.pc|)
    ensures forall c :: c in s'.chan ==> Sleepers(s'.chan[c], |s'.pc|)
  {
    assert !Asleep(s, c0, t);
  }

  lemma SleepChans(s: State, s': State, t: Tid, c0: Chan)
    requires Inv(s) && t < |s.pc| && StepSleep(s, s', t, c0)
    ensures |s'.pc| == |s.pc| && forall u :: 0 <= u < |s'.pc| ==> ChansOk(s', u)
    ensures forall c :: c in s'.chan ==> Sleepers(s'.chan[c], |s'.pc|)
  {
    hide SpinsOk, OwnerOk, Sleepers, Asleep, SleepsOn, Queue;
    assert ChansOk(s, t);
    SleepDistinct(s, s', t, c0);
    forall u, c | 0 <= u < |s'.pc| ensures Asleep(s', c, u) <==> SleepsOn(s'.pc[u]) == Some(c) {
      assert ChansOk(s, u);
      SleepChansAt(s, s', t, c0, u, c);
    }
  }

  lemma Split(q: seq<Tid>, n: nat, u: Tid)
    requires n <= |q| && Distinct(q)
    ensures u in q <==> u in q[..n] || u in q[n..]
    ensures !(u in q[..n] && u in q[n..])
  {
  }

  function First(q: seq<Tid>): (r: seq<Tid>)
    ensures |r| <= 1 && r <= q && (q != [] ==> r != [])
  {
    if q == [] then [] else [q[0]]
  }

  /** What a wakeup leaves: the channel without those woken, and each of them on its way to the lock. */
  ghost predicate Popped(s: State, s': State, t: Tid, c: Chan, woken: seq<Tid>) {
    && t < |s.pc| == |s'.pc|
    && woken == (if s.pc[t].SPop? && s.pc[t].all then Queue(s, c) else First(Queue(s, c)))
    && |woken| <= |Queue(s, c)| && (Queue(s, c) != [] ==> woken != []) && woken == Queue(s, c)[..|woken|]
    && Queue(s', c) == Queue(s, c)[|woken|..]
    && (forall d :: d != c ==> Queue(s', d) == Queue(s, d))
    && PopsNext(s.pc[t]).Some? && PopsNext(s.pc[t]).value == (c, s'.pc[t])
    && (forall u :: 0 <= u < |s.pc| && u != t ==> s'.pc[u] == if u in woken then Awake(s.pc[u]) else s.pc[u])
    && s'.held == s.held - {InChan(c)} && s'.owner == s.owner && s'.locked == s.locked
  }

  lemma PopIsPopped(s: State, s': State, t: Tid, c: Chan, woken: seq<Tid>)
    requires t < |s.pc| && StepPop(s, s', t, c, woken)
    ensures Popped(s, s', t, c, woken)
  {
  }

  lemma PopChansAt(s: State, s': State, t: Tid, c0: Chan, woken: seq<Tid>, u: Tid, c: Chan)
    requires t < |s.pc| && u < |s.pc| && Popped(s, s', t, c0, woken) && Sleepers(Queue(s, c0), |s.pc|)
    requires ChansOk(s, u) && ChansOk(s, t)
    ensures Asleep(s', c, u) <==> SleepsOn(s'.pc[u]) == Some(c)
  {
    hide First;
    Split(Queue(s, c0), |woken|, u);
    assert Asleep(s, c, u) <==> SleepsOn(s.pc[u]) == Some(c);
    assert Asleep(s, c0, u) <==> SleepsOn(s.pc[u]) == Some(c0);
  }

  lemma PopChans(s: State, s': State, t: Tid, c0: Chan, woken: seq<Tid>, u: Tid)
    requires Popped(s, s', t, c0, woken) && Sleepers(Queue(s, c0), |s.pc|) && t < |s.pc| && u < |s.pc| == |s'.pc|
    requires ChansOk(s, u) && ChansOk(s, t)
    ensures ChansOk(s', u)
  {
    forall c ensures Asleep(s', c, u) <==> SleepsOn(s'.pc[u]) == Some(c) {
      hide *;
      PopChansAt(s, s', t, c0, woken, u, c);
    }
    hide Popped, Sleepers, Asleep, SleepsOn;
  }

  lemma PopDistinct(s: State, s': State, t: Tid, c0: Chan, woken: seq<Tid>)
    requires t < |s.pc| && StepPop(s, s', t, c0, woken) && forall c :: c in s.chan ==> Sleepers(s.chan[c], |s.pc|)
    ensures Sleepers(Queue(s, c0), |s.pc|) && forall c :: c in s'.chan ==> Sleepers(s'.chan[c], |s'.pc|)
  {
  }

  // ----- owners -----

  lemma SameOwners(s: State, s': State, t: Tid)
    requires Inv(s) && t < |s.pc| == |s'.pc| && s'.owner == s.owner && OwnerOk(s', t)
    requires forall u :: 0 <= u < |s.pc| && u != t ==> s'.pc[u] == s.pc[u] || s'.pc[u].AEnter?
    ensures forall u :: 0 <= u < |s'.pc| ==> OwnerOk(s', u)
  {
    hide SpinsOk, ChansOk;
    forall u | 0 <= u < |s'.pc| ensures OwnerOk(s', u) { assert OwnerOk(s, u); }
  }

  /** Taking the lock under its spinlock: nobody else is about to, and nobody relied on it. */
  lemma TakeOwners(s: State, s': State, t: Tid, l: nat)
    requires Inv(s) && t < |s.pc| && StepTake(s, s', t, l)
    ensures forall u :: 0 <= u < |s'.pc| ==> OwnerOk(s', u)
  {
    hide SpinsOk, ChansOk;
    assert OwnerOk(s, t);
    forall u | 0 <= u < |s'.pc| ensures OwnerOk(s', u) {
      assert OwnerOk(s, u);
      if (s.pc[u].ATake? || s.pc[u].RWake? || s.pc[u].RPop? || s.pc[u].RDone?) && s.pc[u].l == l {
        OneHolder(s, InLock(l), t, u);
      }
    }
  }

  lemma ClearOwners(s: State, s': State, t: Tid, l: nat, cv: Option<nat>)
    requires Inv(s) && t < |s.pc| && StepClear(s, s', t, l, cv)
    ensures forall u :: 0 <= u < |s'.pc| ==> OwnerOk(s', u)
  {
    hide SpinsOk, ChansOk;
    assert OwnerOk(s, t);
    forall u | 0 <= u < |s'.pc| ensures OwnerOk(s', u) { assert OwnerOk(s, u); }
  }

  // ----- every step keeps the invariant -----

  lemma CallKeeps(s: State, lab: Label, s': State)
    requires Inv(s) && Step(s, lab, s') && (lab.CallAcquire? || lab.CallRelease? || lab.CallWait? || lab.CallSignal?)
    ensures Inv(s')
  {
    hide SpinsOk, ChansOk;
    SameSpins(s, s', lab.t);
    SameChans(s, s', lab.t);
    SameOwners(s, s', lab.t);
  }

  lemma GrabKeeps(s: State, s': State, t: Tid)
    requires Inv(s) && t < |s.pc| && StepGrab(s, s', t)
    ensures Inv(s')
  {
    hide SpinsOk, ChansOk;
    assert OwnerOk(s, t);
    GrabSpins(s, s', t, Wants(s.pc[t]).value.0);
    SameChans(s, s', t);
    SameOwners(s, s', t);
  }

  lemma FreeKeeps(s: State, s': State, t: Tid)
    requires Inv(s) && t < |s.pc| && StepFree(s, s', t)
    ensures Inv(s')
  {
    hide SpinsOk, ChansOk;
    assert OwnerOk(s, t);
    FreeSpins(s, s', t, Frees(s.pc[t]).value.0);
    SameChans(s, s', t);
    SameOwners(s, s', t);
  }

  lemma TestKeeps(s: State, s': State, t: Tid)
    requires Inv(s) && t < |s.pc| && StepTest(s, s', t)
    ensures Inv(s')
  {
    hide SpinsOk, ChansOk;
    assert OwnerOk(s, t);
    SameSpins(s, s', t);
    SameChans(s, s', t);
    SameOwners(s, s', t);
  }

  lemma TakeKeeps(s: State, s': State, t: Tid, l: nat)
    requires Inv(s) && t < |s.pc| && StepTake(s, s', t, l)
    ensures Inv(s')
  {
    hide SpinsOk, ChansOk, OwnerOk;
    SameSpins(s, s', t);
    SameChans(s, s', t);
    TakeOwners(s, s', t, l);
  }

  lemma ClearKeeps(s: State, s': State, t: Tid, l: nat, cv: Option<nat>)
    requires Inv(s) && t < |s.pc| && StepClear(s, s', t, l, cv)
    ensures Inv(s')
  {
    hide SpinsOk, ChansOk, OwnerOk;
    SameSpins(s, s', t);
    SameChans(s, s', t);
    ClearOwners(s, s', t, l, cv);
  }

  lemma SleepKeeps(s: State, s': State, t: Tid, c: Chan)
    requires Inv(s) && t < |s.pc| && StepSleep(s, s', t, c)
    ensures Inv(s')
  {
    hide SpinsOk, ChansOk;
    assert OwnerOk(s, t);
    FreeSpins(s, s', t, InChan(c));
    SleepChans(s, s', t, c);
    SameOwners(s, s', t);
  }

  /** Those woken slept on the channel, and hold no spinlock. */
  lemma WokenSlept(s: State, s': State, t: Tid, c: Chan, woken: seq<Tid>, u: Tid)
    requires Inv(s) && Popped(s, s', t, c, woken) && u < |s.pc| && u != t && u in woken
    ensures SleepsOn(s.pc[u]) == Some(c) && s'.pc[u].AEnter?
  {
    hide SpinsOk, OwnerOk;
    assert ChansOk(s, u) && Asleep(s, c, u);
  }

  lemma PopOthers(s: State, s': State, t: Tid, c: Chan, woken: seq<Tid>, u: Tid)
    requires Inv(s) && Popped(s, s', t, c, woken) && u < |s.pc| && u != t
    ensures Spins(s'.pc[u]) == Spins(s.pc[u]) && (s'.pc[u] == s.pc[u] || s'.pc[u].AEnter?)
  {
    hide Inv, Queue;
    if u in woken { WokenSlept(s, s', t, c, woken, u); }
  }

  lemma PopSelf(s: State, s': State, t: Tid, c: Chan, woken: seq<Tid>)
    requires Inv(s) && Popped(s, s', t, c, woken)
    ensures InChan(c) in Spins(s.pc[t]) && Spins(s'.pc[t]) == Spins(s.pc[t]) - {InChan(c)} && OwnerOk(s', t)
  {
    hide SpinsOk, ChansOk, Queue;
    assert OwnerOk(s, t);
  }

  lemma PopKeeps(s: State, s': State, t: Tid, c: Chan, woken: seq<Tid>)
    requires Inv(s) && t < |s.pc| && StepPop(s, s', t, c, woken)
    ensures Inv(s') && Popped(s, s', t, c, woken)
  {
    hide SpinsOk, ChansOk, Sleepers, StepPop, OwnerOk, Spins, Popped, PopsNext, Queue;
    PopIsPopped(s, s', t, c, woken);
    PopDistinct(s, s', t, c, woken);
    PopFrame(s, s', t, c, woken);
    PopSelf(s, s', t, c, woken);
    forall u | 0 <= u < |s.pc| && u != t
      ensures Spins(s'.pc[u]) == Spins(s.pc[u]) && (s'.pc[u] == s.pc[u] || s'.pc[u].AEnter?)
    {
      PopOthers(s, s', t, c, woken, u);
    }
    FreeSpins(s, s', t, InChan(c));
    SameOwners(s, s', t);
    forall u | 0 <= u < |s'.pc| ensures ChansOk(s', u) { PopChans(s, s', t, c, woken, u); }
  }

  lemma PopFrame(s: State, s': State, t: Tid, c: Chan, woken: seq<Tid>)
    requires Popped(s, s', t, c, woken)
    ensures |s'.pc| == |s.pc| && s'.held == s.held - {InChan(c)} && s'.owner == s.owner && s'.locked == s.locked
  {
  }

  lemma StepKeeps(s: State, lab: Label, s': State)
    requires Inv(s) && Step(s, lab, s')
    ensures Inv(s')
  {
    hide Inv, StepGrab, StepFree, StepTest, StepTake, StepClear, StepSleep, StepPop;
    match lab
    case Grab(t) => GrabKeeps(s, s', t);
    case Free(t) => FreeKeeps(s, s', t);
    case Test(t) => TestKeeps(s, s', t);
    case TakeLock(t, l) => TakeKeeps(s, s', t, l);
    case ClearLock(t, l, cv) => ClearKeeps(s, s', t, l, cv);
    case Sleep(t, c) => SleepKeeps(s, s', t, c);
    case Pop(t, c, woken) => PopKeeps(s, s', t, c, woken);
    case _ => CallKeeps(s, lab, s');
  }

  // ----- a free lock never leaves its sleepers to themselves -----

  /** Asleep on the channel of lock l, or on the way there. */
  predicate Blocked(pc: Pc, l: nat) {
    (pc.ABridge? || pc.ABoth? || pc.ASleepy? || pc.AAsleep?) && pc.l == l
  }

  /** About to wake a sleeper of l, or woken from l's channel and still to test the lock again. */
  predicate Rescuing(pc: Pc, l: nat) {
    (pc.RWake? || pc.RPop? || ((pc.AEnter? || pc.ATest? || pc.ATake?) && pc.woken)) && pc.l == l
  }

  predicate BlockedAt(s: State, l: nat, t: Tid) { t < |s.pc| && Blocked(s.pc[t], l) }

  predicate RescuedBy(s: State, l: nat, t: Tid) { t < |s.pc| && Rescuing(s.pc[t], l) }

  ghost predicate NoLostWakeup(s: State, l: nat) {
    l !in s.owner && (exists t: Tid :: BlockedAt(s, l, t)) ==> exists t: Tid :: RescuedBy(s, l, t)
  }

  /** Outside wakeups, a thread becomes blocked only by finding the lock held. */
  lemma BlockedBefore(s: State, lab: Label, s': State, l: nat, u: Tid)
    requires Step(s, lab, s') && !lab.Pop? && l !in s.locked && BlockedAt(s', l, u)
    ensures BlockedAt(s, l, u)
  {
  }

  /** And a rescuer stays one until somebody has the lock. */
  lemma RescuedAfter(s: State, lab: Label, s': State, l: nat, u: Tid)
    requires Step(s, lab, s') && !lab.Pop? && l !in s.locked && l !in s'.owner && RescuedBy(s, l, u)
    ensures RescuedBy(s', l, u)
  {
  }

  lemma StepWakeups(s: State, lab: Label, s': State, l: nat)
    requires Inv(s) && Step(s, lab, s') && !lab.Pop? && NoLostWakeup(s, l)
    ensures NoLostWakeup(s', l)
  {
    hide BlockedAt, RescuedBy, SpinsOk, ChansOk, StepGrab, StepFree, StepTest, StepSleep;
    if l !in s'.owner && exists u: Tid :: BlockedAt(s', l, u) {
      if lab.ClearLock? && lab.l == l {
        ClearRescues(s, lab, s');
      } else {
        if !lab.TakeLock? && !lab.ClearLock? { OwnerChange(s, lab, s'); }
        var u: Tid :| BlockedAt(s', l, u);
        BlockedBefore(s, lab, s', l, u);
        var r: Tid :| RescuedBy(s, l, r);
        RescuedAfter(s, lab, s', l, r);
      }
    }
  }

  lemma ClearRescues(s: State, lab: Label, s': State)
    requires Step(s, lab, s') && lab.ClearLock?
    ensures RescuedBy(s', lab.l, lab.t)
  {
  }

  /** A wakeup on l's channel, under both its spinlocks, finds a sleeper if anybody is blocked at all. */
  lemma PopFindsSleeper(s: State, s': State, t: Tid, woken: seq<Tid>, l: nat, u: Tid)
    requires Inv(s) && Popped(s, s', t, LockChan(l), woken) && BlockedAt(s', l, u)
    ensures woken != [] && RescuedBy(s', l, woken[0])
  {
    hide SpinsOk, OwnerOk, Sleepers;
    assert u != t && s'.pc[u] == s.pc[u];
    if !s.pc[u].AAsleep? {
      OneHolder(s, if s.pc[u].ASleepy? then InChan(LockChan(l)) else InLock(l), t, u);
    }
    assert ChansOk(s, u) && Asleep(s, LockChan(l), u);
    FirstWoken(s, s', t, woken, l);
  }

  lemma FirstWoken(s: State, s': State, t: Tid, woken: seq<Tid>, l: nat)
    requires Inv(s) && Popped(s, s', t, LockChan(l), woken) && woken != []
    ensures RescuedBy(s', l, woken[0])
  {
    hide SpinsOk, OwnerOk;
    var w := woken[0];
    assert Asleep(s, LockChan(l), w) && w < |s.pc| && ChansOk(s, w) && ChansOk(s, t);
  }

  lemma PopWakeups(s: State, s': State, t: Tid, c: Chan, woken: seq<Tid>, l: nat)
    requires Inv(s) && Popped(s, s', t, c, woken) && NoLostWakeup(s, l)
    ensures NoLostWakeup(s', l)
  {
    hide Inv, Queue;
    if l !in s'.owner && exists u: Tid :: BlockedAt(s', l, u) {
      var u: Tid :| BlockedAt(s', l, u);
      if c == LockChan(l) {
        PopFindsSleeper(s, s', t, woken, l, u);
      } else {
        assert BlockedAt(s, l, u);
        var r: Tid :| RescuedBy(s, l, r);
        if r != t && r in woken { WokenSlept(s, s', t, c, woken, r); }
        assert RescuedBy(s', l, r);
      }
    }
  }

  // ----- histories: who is past lock_acquire, and who waits on a CV -----

  /** The threads that took lock l and have not given it up since. */
  function Holders(labels: seq<Label>, l: nat): set<Tid> {
    if labels == [] then {}
    else
      var before := Holders(labels[..|labels| - 1], l);
      match labels[|labels| - 1]
      case TakeLock(t, l') => if l' == l then before + {t} else before
      case ClearLock(t, l', _) => if l' == l then before - {t} else before
      case _ => before
  }

  /** The threads that gave up a lock in cv_wait on v and that nobody has woken since. */
  function Waiters(labels: seq<Label>, v: nat): set<Tid> {
    if labels == [] then {}
    else
      var before := Waiters(labels[..|labels| - 1], v);
      match labels[|labels| - 1]
      case ClearLock(t, _, cv) => if cv == Some(v) then before + {t} else before
      case Pop(_, c, woken) => if c == CvChan(v) then before - (set u | u in woken) else before
      case _ => before
  }

  /** What an event does to the line at channel c. */
  function Queued(line: seq<Tid>, lab: Label, c: Chan): seq<Tid> {
    match lab
    case Sleep(t, d) => if d == c then line + [t] else line
    case Pop(_, d, woken) => if d == c && |woken| <= |line| then line[|woken|..] else line
    case _ => line
  }

  /** The threads asleep on channel c, in the order in which they went to sleep. */
  function Line(labels: seq<Label>, c: Chan): seq<Tid> {
    if labels == [] then [] else Queued(Line(labels[..|labels| - 1], c), labels[|labels| - 1], c)
  }

  /**
   * The call a thread is in or was in last, and how far it has got: a release has cleared the
   * lock and then seen to the lock's sleepers; a wait has done both and then been woken; a
   * signal has been given. `roused` says whether a thread was woken from the lock's channel since
   * it last went to sleep.
   */
  datatype Call =
    | NoCall
    | Acquiring(l: nat, roused: bool)
    | Releasing(l: nat, cleared: bool, passed: bool)
    | Waiting(v: nat, l: nat, cleared: bool, passed: bool, woken: bool, roused: bool)
    | Signalling(v: nat, l: nat, all: bool, given: bool)

  function Cleared(call: Call, l: nat): Call {
    match call
    case Releasing(k, _, passed) => Releasing(k, k == l, passed)
    case Waiting(v, k, _, passed, woken, roused) => Waiting(v, k, k == l, passed, woken, roused)
    case _ => call
  }

  function Gave(call: Call, c: Chan): Call {
    match call
    case Releasing(l, cleared, _) => Releasing(l, cleared, c == LockChan(l))
    case Waiting(v, l, cleared, _, woken, roused) => Waiting(v, l, cleared, c == LockChan(l), woken, roused)
    case Signalling(v, l, all, _) => Signalling(v, l, all, c == CvChan(v))
    case _ => call
  }

  function Woken(call: Call, c: Chan): Call {
    match call
    case Acquiring(l, roused) => Acquiring(l, roused || c == LockChan(l))
    case Waiting(v, l, cleared, passed, woken, roused) =>
      Waiting(v, l, cleared, passed, woken || c == CvChan(v), roused || c == LockChan(l))
    case _ => call
  }

  function Slept(call: Call): Call {
    match call
    case Acquiring(l, _) => Acquiring(l, false)
    case Waiting(v, l, cleared, passed, woken, _) => Waiting(v, l, cleared, passed, woken, false)
    case _ => call
  }

  /** What an event means for thread t's call. */
  function Then(call: Call, lab: Label, t: Tid): Call {
    if lab.t == t then
      match lab
      case CallAcquire(_, l) => Acquiring(l, false)
      case CallRelease(_, l) => Releasing(l, false, false)
      case CallWait(_, v, l) => Waiting(v, l, false, false, false, false)
      case CallSignal(_, v, l, all) => Signalling(v, l, all, false)
      case ClearLock(_, l, _) => Cleared(call, l)
      case Pop(_, c, _) => Gave(call, c)
      case Sleep(_, _) => Slept(call)
      case _ => call
    else if lab.Pop? && t in lab.woken then Woken(call, lab.c)
    else call
  }

  function CallOf(labels: seq<Label>, t: Tid): Call {
    if labels == [] then NoCall else Then(CallOf(labels[..|labels| - 1], t), labels[|labels| - 1], t)
  }

  ghost predicate Init(s: State) {
    && s.locked == {} && s.owner == map[] && s.held == map[] && s.chan == map[]
    && forall t :: 0 <= t < |s.pc| ==> s.pc[t] == Outside
  }

  ghost predicate IsRun(states: seq<State>, labels: seq<Label>) {
    && |states| == |labels| + 1 && Init(states[0])
    && forall i :: 0 <= i < |labels| ==> Step(states[i], labels[i], states[i + 1])
  }

  function Owners(s: State, l: nat): set<Tid> {
    if l in s.owner then {s.owner[l]} else {}
  }

  lemma HoldersStep(s: State, lab: Label, s': State, labels: seq<Label>, l: nat)
    requires Inv(s) && Step(s, lab, s') && Holders(labels, l) == Owners(s, l)
    ensures Holders(labels + [lab], l) == Owners(s', l)
  {
    hide SpinsOk, ChansOk, StepGrab, StepFree, StepTest, StepSleep, StepPop;
    assert (labels + [lab])[..|labels|] == labels;
    assert OwnerOk(s, lab.t);
    if !lab.TakeLock? && !lab.ClearLock? { OwnerChange(s, lab, s'); }
  }

  lemma OwnerChange(s: State, lab: Label, s': State)
    requires Step(s, lab, s') && !lab.TakeLock? && !lab.ClearLock?
    ensures s'.owner == s.owner
  {
  }

  /** Has given up the lock inside cv_wait on v and has not been woken. */
  predicate GaveUp(pc: Pc, v: nat) {
    match pc
    case RWake(_, cv) => cv == Some(v)
    case RPop(_, cv) => cv == Some(v)
    case RDone(_, cv) => cv == Some(v)
    case WBridge(w, _) => w == v
    case WBoth(w, _) => w == v
    case WSleepy(w, _) => w == v
    case WAsleep(w, _) => w == v
    case _ => false
  }

  predicate Waits(s: State, v: nat, t: Tid) {
    t < |s.pc| && GaveUp(s.pc[t], v)
  }

  lemma PopWaiters(s: State, s': State, t: Tid, c: Chan, woken: seq<Tid>, v: nat, u: Tid)
    requires Inv(s) && Popped(s, s', t, c, woken)
    ensures Waits(s', v, u) <==> Waits(s, v, u) && !(c == CvChan(v) && u in woken)
  {
    hide Inv, Queue;
    if u < |s.pc| && u != t && u in woken { WokenSlept(s, s', t, c, woken, u); }
  }

  /** Between wakeups, a thread starts to wait exactly when it gives up the lock in cv_wait. */
  lemma OtherWaiters(s: State, lab: Label, s': State, v: nat, u: Tid)
    requires Step(s, lab, s') && !lab.Pop?
    ensures Waits(s', v, u) <==> Waits(s, v, u) || (lab.ClearLock? && lab.t == u && lab.cv == Some(v))
  {
  }

  lemma WaitersStep(s: State, lab: Label, s': State, labels: seq<Label>, v: nat)
    requires Inv(s) && Step(s, lab, s') && forall u: Tid :: u in Waiters(labels, v) <==> Waits(s, v, u)
    ensures forall u: Tid :: u in Waiters(labels + [lab], v) <==> Waits(s', v, u)
  {
    hide Inv, Waits, StepPop;
    assert (labels + [lab])[..|labels|] == labels;
    forall u: Tid ensures u in Waiters(labels + [lab], v) <==> Waits(s', v, u) {
      if lab.Pop? {
        PopIsPopped(s, s', lab.t, lab.c, lab.woken);
        PopWaiters(s, s', lab.t, lab.c, lab.woken, v, u);
      } else {
        OtherWaiters(s, lab, s', v, u);
      }
    }
  }

  /** Program order against the history: where a thread is in the call it made last. */
  predicate InCall(pc: Pc, call: Call) {
    match pc
    case Outside => true
    case REnter(l, cv) => AtRelease(call, l, cv, false, false)
    case RClear(l, cv) => AtRelease(call, l, cv, false, false)
    case RWake(l, cv) => AtRelease(call, l, cv, true, false)
    case RPop(l, cv) => AtRelease(call, l, cv, true, false)
    case RDone(l, cv) => AtRelease(call, l, cv, true, true)
    case WEnter(v, l) => call == Waiting(v, l, false, false, false, false)
    case WBridge(v, l) => call == Waiting(v, l, true, true, false, false)
    case WBoth(v, l) => call == Waiting(v, l, true, true, false, false)
    case WSleepy(v, l) => call == Waiting(v, l, true, true, false, false)
    case WAsleep(v, l) => call == Waiting(v, l, true, true, false, false)
    case SEnter(v, l, all) => call == Signalling(v, l, all, false)
    case SWake(v, l, all) => call == Signalling(v, l, all, false)
    case SPop(v, l, all) => call == Signalling(v, l, all, false)
    case SDone(v, l) => call.Signalling? && call == Signalling(v, l, call.all, true)
    case AEnter(l, woken) => Acquires(call, l) && call.roused == woken
    case ATest(l, woken) => Acquires(call, l) && call.roused == woken
    case ATake(l, woken) => Acquires(call, l) && call.roused == woken
    case AAsleep(l) => Acquires(call, l) && !call.roused
    case _ => Acquires(call, pc.l)
  }

  predicate Acquires(call: Call, l: nat) {
    (call.Acquiring? && call.l == l) || (call.Waiting? && call.l == l && call.cleared && call.passed && call.woken)
  }

  predicate AtRelease(call: Call, l: nat, cv: Option<nat>, cleared: bool, passed: bool) {
    call == if cv.Some? then Waiting(cv.value, l, cleared, passed, false, false) else Releasing(l, cleared, passed)
  }

  lemma CallsPop(s: State, s': State, t: Tid, c: Chan, woken: seq<Tid>, u: Tid, call: Call)
    requires Inv(s) && Popped(s, s', t, c, woken) && u < |s.pc| && InCall(s.pc[u], call)
    ensures InCall(s'.pc[u], if u == t then Gave(call, c) else if u in woken then Woken(call, c) else call)
  {
    hide Inv, Queue;
    if u != t && u in woken { WokenSlept(s, s', t, c, woken, u); }
  }

  lemma OthersStay(s: State, lab: Label, s': State, u: Tid)
    requires Step(s, lab, s') && !lab.Pop? && u < |s.pc| && u != lab.t
    ensures u < |s'.pc| && s'.pc[u] == s.pc[u]
  {
  }

  lemma OwnCall(s: State, lab: Label, s': State, call: Call)
    requires Step(s, lab, s') && !lab.Pop? && InCall(s.pc[lab.t], call)
    ensures lab.t < |s'.pc| && InCall(s'.pc[lab.t], Then(call, lab, lab.t))
  {
  }

  lemma CallsStep(s: State, lab: Label, s': State, u: Tid, labels: seq<Label>)
    requires Inv(s) && Step(s, lab, s') && u < |s.pc| && InCall(s.pc[u], CallOf(labels, u))
    ensures u < |s'.pc| && InCall(s'.pc[u], CallOf(labels + [lab], u))
  {
    hide Inv, InCall, StepPop, Popped;
    assert (labels + [lab])[..|labels|] == labels;
    if lab.Pop? {
      PopIsPopped(s, s', lab.t, lab.c, lab.woken);
      PopFrame(s, s', lab.t, lab.c, lab.woken);
      CallsPop(s, s', lab.t, lab.c, lab.woken, u, CallOf(labels, u));
    } else if u == lab.t {
      OwnCall(s, lab, s', CallOf(labels, u));
    } else {
      OthersStay(s, lab, s', u);
    }
  }

  lemma QueueStep(s: State, lab: Label, s': State, c: Chan)
    requires Step(s, lab, s')
    ensures Queue(s', c) == Queued(Queue(s, c), lab, c)
  {
    hide StepGrab, StepFree, StepTest, StepTake, StepClear, StepPop, PopsNext, SleepsNext, WakeThese, First;
    if lab.Pop? {
      PopIsPopped(s, s', lab.t, lab.c, lab.woken);
    } else if !lab.Sleep? {
      ChannelsStay(s, lab, s');
    }
  }

  lemma LineStep(s: State, lab: Label, s': State, c: Chan, labels: seq<Label>)
    requires Step(s, lab, s') && Line(labels, c) == Queue(s, c)
    ensures Line(labels + [lab], c) == Queue(s', c)
  {
    hide Step, Queued, Queue;
    assert (labels + [lab])[..|labels|] == labels;
    QueueStep(s, lab, s', c);
  }

  lemma ChannelsStay(s: State, lab: Label, s': State)
    requires Step(s, lab, s') && !lab.Pop? && !lab.Sleep?
    ensures s'.chan == s.chan
  {
  }

  lemma {:induction false} RunCalls(states: seq<State>, labels: seq<Label>, n: nat)
    requires IsRun(states, labels) && n <= |labels|
    ensures forall c :: Line(labels[..n], c) == Queue(states[n], c)
    ensures forall u :: 0 <= u < |states[n].pc| ==> InCall(states[n].pc[u], CallOf(labels[..n], u))
  {
    hide Inv, Step, Line, CallOf, Queue, InCall;
    if n == 0 {
      assert labels[..0] == [];
      CallsInit(states[0]);
    } else {
      RunCalls(states, labels, n - 1);
      RunInv(states, labels, n - 1);
      var s, lab, s', was := states[n - 1], labels[n - 1], states[n], labels[..n - 1];
      assert labels[..n] == was + [lab];
      forall c ensures Line(labels[..n], c) == Queue(s', c) { LineStep(s, lab, s', c, was); }
      SameThreads(s, lab, s');
      forall u | 0 <= u < |s'.pc| ensures InCall(s'.pc[u], CallOf(labels[..n], u)) { CallsStep(s, lab, s', u, was); }
    }
  }

  lemma SameThreads(s: State, lab: Label, s': State)
    requires Step(s, lab, s')
    ensures |s'.pc| == |s.pc|
  {
  }

  lemma CallsInit(s: State)
    requires Init(s)
    ensures forall c :: Line([], c) == Queue(s, c)
    ensures forall u :: 0 <= u < |s.pc| ==> InCall(s.pc[u], CallOf([], u))
  {
  }

  lemma {:induction false} RunInv(states: seq<State>, labels: seq<Label>, n: nat)
    requires IsRun(states, labels) && n <= |labels|
    ensures Inv(states[n])
    ensures forall l :: Holders(labels[..n], l) == Owners(states[n], l)
    ensures forall v, u: Tid :: u in Waiters(labels[..n], v) <==> Waits(states[n], v, u)
    ensures forall l :: NoLostWakeup(states[n], l)
  {
    hide Inv, Step, Init, Owners, Waits, Holders, Waiters, NoLostWakeup;
    if n == 0 {
      assert labels[..0] == [];
      InitInv(states[0]);
    } else {
      RunInv(states, labels, n - 1);
      var s, lab, s', was := states[n - 1], labels[n - 1], states[n], labels[..n - 1];
      assert labels[..n] == was + [lab];
      StepKeeps(s, lab, s');
      forall l ensures Holders(labels[..n], l) == Owners(s', l) { HoldersStep(s, lab, s', was, l); }
      forall v, u: Tid ensures u in Waiters(labels[..n], v) <==> Waits(s', v, u) { WaitersStep(s, lab, s', was, v); }
      forall l ensures NoLostWakeup(s', l) { WakeupsStep(s, lab, s', l); }
    }
  }

  lemma WakeupsStep(s: State, lab: Label, s': State, l: nat)
    requires Inv(s) && Step(s, lab, s') && NoLostWakeup(s, l)
    ensures NoLostWakeup(s', l)
  {
    hide Inv, StepPop, NoLostWakeup;
    if lab.Pop? {
      PopIsPopped(s, s', lab.t, lab.c, lab.woken);
      PopWakeups(s, s', lab.t, lab.c, lab.woken, l);
    } else {
      StepWakeups(s, lab, s', l);
    }
  }

  lemma InitInv(s: State)
    requires Init(s)
    ensures Inv(s)
    ensures forall l :: Holders([], l) == Owners(s, l)
    ensures forall v, u: Tid :: u in Waiters([], v) <==> Waits(s, v, u)
    ensures forall l :: NoLostWakeup(s, l)
  {
  }

  /** Mutual exclusion: at most one thread is past lock_acquire, and is_locked says whether there is one. */
  lemma RunExclusion(states: seq<State>, labels: seq<Label>, n: nat, l: nat)
    requires IsRun(states, labels) && n <= |labels|
    ensures |Holders(labels[..n], l)| <= 1
    ensures l in states[n].locked <==> Holders(labels[..n], l) != {}
    ensures n < |labels| && labels[n].TakeLock? ==> labels[n].l !in states[n].locked
  {
    hide Init, Holders, Waiters, SpinsOk, ChansOk;
    RunInv(states, labels, n);
    if n < |labels| && labels[n].TakeLock? {
      assert Step(states[n], labels[n], states[n + 1]);
      assert OwnerOk(states[n], labels[n].t);
    }
  }

  /**
   * No wakeup of a lock is lost: while a thread is on the channel of a lock that is not held,
   * some thread is between clearing that lock and waking a sleeper, or was woken from the
   * channel and has yet to test the lock again.
   */
  lemma RunNoLostWakeup(states: seq<State>, labels: seq<Label>, n: nat, l: nat)
    requires IsRun(states, labels) && n <= |labels|
    requires Queue(states[n], LockChan(l)) != [] && l !in states[n].locked
    ensures exists t: Tid :: RescuedBy(states[n], l, t)
  {
    var s := states[n];
    RunInv(states, labels, n);
    hide Init, Holders, Waiters, SpinsOk, OwnerOk, Waits, Owners, IsRun, RescuedBy;
    var t := Queue(s, LockChan(l))[0];
    assert Asleep(s, LockChan(l), t) && ChansOk(s, t);
    assert BlockedAt(s, l, t) && NoLostWakeup(s, l);
  }

  /** When every thread is outside or asleep and one sleeps on a lock's channel, the lock is held. */
  lemma RunQuiescent(states: seq<State>, labels: seq<Label>, n: nat, l: nat)
    requires IsRun(states, labels) && n <= |labels|
    requires forall t :: 0 <= t < |states[n].pc| ==> states[n].pc[t].Outside? || SleepsOn(states[n].pc[t]).Some?
    requires exists t: Tid :: t < |states[n].pc| && states[n].pc[t] == AAsleep(l)
    ensures l in states[n].locked
  {
    var s := states[n];
    RunInv(states, labels, n);
    hide Init, Holders, Waiters, SpinsOk, OwnerOk, ChansOk, Waits, Owners, IsRun;
    var t: Tid :| t < |s.pc| && s.pc[t] == AAsleep(l);
    assert BlockedAt(s, l, t) && NoLostWakeup(s, l);
  }

  /** Whoever wakes threads on a CV's channel holds both its spinlocks: nobody is half-way to sleep. */
  lemma AtPop(s: State, s': State, t: Tid, v: nat, woken: seq<Tid>, u: Tid)
    requires Inv(s) && t < |s.pc| && StepPop(s, s', t, CvChan(v), woken)
    ensures Waits(s, v, u) <==> u in Queue(s, CvChan(v))
  {
    hide StepPop, SpinsOk;
    assert s.pc[t].SPop? && s.pc[t].v == v by { PopIsPopped(s, s', t, CvChan(v), woken); }
    if u < |s.pc| {
      assert ChansOk(s, u);
      assert Asleep(s, CvChan(v), u) <==> SleepsOn(s.pc[u]) == Some(CvChan(v));
      if Waits(s, v, u) && !s.pc[u].WAsleep? {
        OneHolder(s, if s.pc[u].WSleepy? then InChan(CvChan(v)) else InCv(v), t, u);
      }
    }
  }

  /**
   * No signal is lost: at every wakeup on a CV, made by the holder of the lock, the channel
   * holds exactly the threads that gave up the lock in cv_wait and that nobody has woken yet.
   * A broadcast wakes them all; a signal wakes one of them if there is one, and only that one.
   */
  lemma RunSignal(states: seq<State>, labels: seq<Label>, n: nat, v: nat)
    requires IsRun(states, labels) && n < |labels| && labels[n].Pop? && labels[n].c == CvChan(v)
    ensures labels[n].t < |states[n].pc| && states[n].pc[labels[n].t].SPop?
    ensures Holders(labels[..n], states[n].pc[labels[n].t].l) == {labels[n].t}
    ensures forall u: Tid :: u in Waiters(labels[..n], v) <==> u in Queue(states[n], CvChan(v))
    ensures states[n].pc[labels[n].t].all ==> forall u: Tid :: u in Waiters(labels[..n], v) ==> u in labels[n].woken
    ensures Waiters(labels[..n], v) != {} ==> labels[n].woken != [] && labels[n].woken[0] in Waiters(labels[..n], v)
    ensures !states[n].pc[labels[n].t].all ==> |labels[n].woken| <= 1
    ensures Waiters(labels[..n + 1], v) == Waiters(labels[..n], v) - (set u | u in labels[n].woken)
  {
    assert labels[..n + 1][..n] == labels[..n];
    var s, t, woken := states[n], labels[n].t, labels[n].woken;
    RunInv(states, labels, n);
    assert Step(s, labels[n], states[n + 1]);
    forall u: Tid ensures u in Waiters(labels[..n], v) <==> u in Queue(s, CvChan(v)) {
      hide *;
      AtPop(s, states[n + 1], t, v, woken, u);
    }
    hide Init, Holders, Waiters, SpinsOk, ChansOk, Waits, IsRun;
    assert OwnerOk(s, t);
  }

  /**
   * In every run, a channel holds its sleepers in the order in which they went to sleep. A
   * broadcast wakes them all; a signal, and the release of a lock, wake the one that has slept
   * longest, if there is one. A thread sleeps on a CV when it waits on it, and on a lock when it
   * acquires it, for the first time or after a wait.
   */
  lemma RunWakes(states: seq<State>, labels: seq<Label>, n: nat)
    requires IsRun(states, labels) && n < |labels|
    ensures forall c :: Queue(states[n], c) == Line(labels[..n], c)
    ensures labels[n].Pop? ==>
              var call, line := CallOf(labels[..n], labels[n].t), Line(labels[..n], labels[n].c);
              && labels[n].woken == (if call.Signalling? && call.all then line else First(line))
              && (call.Releasing? || call.Waiting? || call.Signalling?)
              && labels[n].c == (if call.Signalling? then CvChan(call.v) else LockChan(call.l))
    ensures labels[n].Sleep? ==>
              var call := CallOf(labels[..n], labels[n].t);
              && (call.Acquiring? || call.Waiting?)
              && labels[n].c == (if call.Waiting? && !call.woken then CvChan(call.v) else LockChan(call.l))
    ensures forall u: Tid, l :: u < |states[n].pc| && Rescuing(states[n].pc[u], l) && states[n].pc[u].AEnter? ==>
              var call := CallOf(labels[..n], u); (call.Acquiring? || call.Waiting?) && call.roused
  {
    hide Line, CallOf, Init, Inv, Queue;
    RunCalls(states, labels, n);
    var s, t := states[n], labels[n].t;
    assert Step(s, labels[n], states[n + 1]);
    assert InCall(s.pc[t], CallOf(labels[..n], t));
    if labels[n].Pop? { PopIsPopped(s, states[n + 1], t, labels[n].c, labels[n].woken); }
  }

  /**
   * In every run, what a call has done when it returns. lock_acquire and cv_wait return with
   * the lock held; cv_wait has given it up, seen to its sleepers and been woken from the CV
   * meanwhile. lock_release returns with the lock given up and its sleepers seen to. cv_signal
   * and cv_broadcast return with the signal given and the lock still held.
   */
  lemma RunReturns(states: seq<State>, labels: seq<Label>, n: nat)
    requires IsRun(states, labels) && n < |labels| && labels[n].t < |states[n].pc| == |states[n + 1].pc|
    requires !states[n].pc[labels[n].t].Outside? && states[n + 1].pc[labels[n].t].Outside?
    ensures var t, call := labels[n].t, CallOf(labels[..n], labels[n].t);
            match call
            case NoCall => false
            case Acquiring(l, _) => Holders(labels[..n + 1], l) == {t}
            case Releasing(l, cleared, passed) => cleared && passed && Holders(labels[..n + 1], l) == {}
            case Waiting(v, l, cleared, passed, woken, _) =>
              cleared && passed && woken && Holders(labels[..n + 1], l) == {t}
            case Signalling(v, l, all, given) => given && Holders(labels[..n + 1], l) == {t}
  {
    var s, t, call := states[n], labels[n].t, CallOf(labels[..n], labels[n].t);
    assert Step(s, labels[n], states[n + 1]);
    RunCalls(states, labels, n);
    RunInv(states, labels, n);
    RunInv(states, labels, n + 1);
    assert InCall(s.pc[t], call);
    hide Line, CallOf, Init, Holders, Waiters, SpinsOk, ChansOk, IsRun, Waits, NoLostWakeup, InCall, Step, OwnerOk;
    assert OwnerOk(s, t);
    CallDone(s, labels[n], states[n + 1], call);
  }

  lemma CallDone(s: State, lab: Label, s': State, call: Call)
    requires Step(s, lab, s') && !s.pc[lab.t].Outside? && s'.pc[lab.t].Outside?
    requires InCall(s.pc[lab.t], call) && OwnerOk(s, lab.t)
    ensures match call
            case NoCall => false
            case Acquiring(l, _) => Owners(s', l) == {lab.t}
            case Releasing(l, cleared, passed) => cleared && passed && Owners(s', l) == {}
            case Waiting(v, l, cleared, passed, woken, _) => cleared && passed && woken && Owners(s', l) == {lab.t}
            case Signalling(v, l, all, given) => given && Owners(s', l) == {lab.t}
  {
    ReturnIsFree(s, lab, s');
  }

  lemma ReturnIsFree(s: State, lab: Label, s': State)
    requires Step(s, lab, s') && !s.pc[lab.t].Outside? && s'.pc[lab.t].Outside?
    ensures lab.Free?
  {
  }

  // ----- progress -----

  /** The steps a thread has still to make, at most, before it returns or sleeps. */
  function Steps(pc: Pc): nat {
    match pc
    case Outside => 0
    case AAsleep(_) => 0
    case WAsleep(_, _) => 0
    case ADone(_) => 1
    case ASleepy(_) => 1
    case ATake(_, _) => 2
    case ABoth(_) => 2
    case ABridge(_) => 3
    case ATest(_, _) => 4
    case AEnter(_, _) => 5
    case WSleepy(_, _) => 1
    case WBoth(_, _) => 2
    case WBridge(_, _) => 3
    case RDone(_, _) => 4
    case RPop(_, _) => 5
    case RWake(_, _) => 6
    case RClear(_, _) => 7
    case REnter(_, _) => 8
    case WEnter(_, _) => 9
    case SDone(_, _) => 1
    case SPop(_, _, _) => 2
    case SWake(_, _, _) => 3
    case SEnter(_, _, _) => 4
  }

  predicate IsCall(lab: Label) { lab.CallAcquire? || lab.CallRelease? || lab.CallWait? || lab.CallSignal? }

  /** Inside a call every step brings a thread nearer to its return or to sleep, and moves nobody else who is awake. */
  lemma StepProgress(s: State, lab: Label, s': State)
    requires Inv(s) && Step(s, lab, s') && !IsCall(lab)
    ensures |s'.pc| == |s.pc| && Steps(s'.pc[lab.t]) < Steps(s.pc[lab.t])
    ensures forall u: Tid :: u < |s.pc| && u != lab.t && s'.pc[u] != s.pc[u] ==> lab.Pop? && Steps(s.pc[u]) == 0
  {
    hide Inv, Queue;
    if lab.Pop? {
      PopIsPopped(s, s', lab.t, lab.c, lab.woken);
      forall u: Tid | u < |s.pc| && u != lab.t && u in lab.woken ensures SleepsOn(s.pc[u]).Some? {
        WokenSlept(s, s', lab.t, lab.c, lab.woken, u);
      }
    }
  }

  ghost predicate CanStep(s: State, t: Tid) {
    exists lab: Label, s': State :: lab.t == t && !IsCall(lab) && Step(s, lab, s')
  }

  lemma Enabled(s: State, lab: Label, s': State)
    requires Step(s, lab, s') && !IsCall(lab)
    ensures CanStep(s, lab.t)
  {
  }

  /** A thread inside a call can step, unless the spinlock it wants is taken. */
  lemma StepExists(s: State, t: Tid)
    requires t < |s.pc| && Steps(s.pc[t]) > 0 && (Wants(s.pc[t]).Some? ==> Wants(s.pc[t]).value.0 !in s.held)
    ensures CanStep(s, t)
  {
    hide CanStep, WakeThese;
    var pc := s.pc[t];
    if Wants(pc).Some? {
      var (x, pc') := Wants(pc).value;
      Enabled(s, Grab(t), Go(s, t, pc').(held := s.held[x := t]));
    } else if Frees(pc).Some? {
      var (x, pc') := Frees(pc).value;
      Enabled(s, Free(t), Go(s, t, pc').(held := s.held - {x}));
    } else if SleepsNext(pc).Some? {
      var (c, pc') := SleepsNext(pc).value;
      Enabled(s, Sleep(t, c), Go(s, t, pc').(chan := s.chan[c := Queue(s, c) + [t]], held := s.held - {InChan(c)}));
    } else if PopsNext(pc).Some? {
      CanPop(s, t);
    } else if pc.ATest? {
      Enabled(s, Test(t), Go(s, t, if pc.l in s.locked then ABridge(pc.l) else ATake(pc.l, pc.woken)));
    } else if pc.ATake? {
      Enabled(s, TakeLock(t, pc.l), Go(s, t, ADone(pc.l)).(locked := s.locked + {pc.l}, owner := s.owner[pc.l := t]));
    } else {
      Enabled(s, ClearLock(t, pc.l, pc.cv),
              Go(s, t, RWake(pc.l, pc.cv)).(locked := s.locked - {pc.l}, owner := s.owner - {pc.l}));
    }
  }

  lemma CanPop(s: State, t: Tid)
    requires t < |s.pc| && PopsNext(s.pc[t]).Some?
    ensures CanStep(s, t)
  {
    hide CanStep, WakeThese;
    var (c, pc') := PopsNext(s.pc[t]).value;
    var q := Queue(s, c);
    var n := if s.pc[t].SPop? && s.pc[t].all then |q| else if q == [] then 0 else 1;
    Enabled(s, Pop(t, c, q[..n]),
            s.(chan := s.chan[c := q[n..]], held := s.held - {InChan(c)}, pc := WakeThese(s.pc, q[..n])[t := pc']));
  }

  /** CV spinlocks are taken before lock spinlocks, and those before channel spinlocks. */
  function Rank(x: Spin): nat {
    match x case InCv(_) => 0 case InLock(_) => 1 case InChan(_) => 2
  }

  lemma HeldInOrder(pc: Pc, x: Spin)
    requires x in Spins(pc)
    ensures Steps(pc) > 0 && (Wants(pc).Some? ==> Rank(Wants(pc).value.0) > Rank(x))
  {
  }

  /** Whoever is in the way can step, or somebody further up is. */
  lemma {:induction false} SomeoneSteps(s: State, t: Tid) returns (u: Tid)
    requires Inv(s) && t < |s.pc| && Steps(s.pc[t]) > 0
    ensures u < |s.pc| && Steps(s.pc[u]) > 0 && CanStep(s, u)
    decreases if Wants(s.pc[t]).Some? then 3 - Rank(Wants(s.pc[t]).value.0) else 0
  {
    hide CanStep, Wants, Spins, Steps, ChansOk, OwnerOk, Sleepers;
    if Wants(s.pc[t]).Some? && Wants(s.pc[t]).value.0 in s.held {
      var x := Wants(s.pc[t]).value.0;
      var h := s.held[x];
      assert SpinsOk(s, h);
      HeldInOrder(s.pc[h], x);
      u := SomeoneSteps(s, h);
    } else {
      StepExists(s, t);
      u := t;
    }
  }

  /** In every run, while any thread is inside a call and awake, some such thread can step: no deadlock. */
  lemma RunNoDeadlock(states: seq<State>, labels: seq<Label>, n: nat, t: Tid)
    requires IsRun(states, labels) && n <= |labels| && t < |states[n].pc| && Steps(states[n].pc[t]) > 0
    ensures exists u: Tid :: u < |states[n].pc| && Steps(states[n].pc[u]) > 0 && CanStep(states[n], u)
  {
    hide CanStep, Inv;
    RunInv(states, labels, n);
    var u := SomeoneSteps(states[n], t);
  }
}
