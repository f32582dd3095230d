/**
 * Semaphores (P and V in kern/thread/synch.c) over wait channels, as a step system for any
 * number of threads. Each acquisition, release and access under a spinlock is a step of its own.
 */
module Semaphore {
  import opened Common

  /**
   * Where a thread is. In P: entering, testing the count, bridging to the channel's lock,
   * holding both locks, about to sleep, asleep, or past the test; `woken` marks a thread that
   * a V has woken. In V: entering, about to increment, about to wake somebody, and leaving.
   */
  datatype Pc =
    | Outside
    | PEnter(woken: bool) | PTest(woken: bool) | PBridge | PBoth | PSleepy | Asleep | PTake(woken: bool)
    | VEnter | VIncrement | VWake | VPop
    | Leave

  datatype State = State(count: int, semLock: Option<Tid>, chanLock: Option<Tid>, chan: seq<Tid>, pc: seq<Pc>)

  /** Entry points and the program order of P and V; Increment and Decrement are the two changes of the count. */
  datatype Label =
    | CallP(t: Tid) | CallV(t: Tid) | Lock(t: Tid) | TestZero(t: Tid) | TestPositive(t: Tid) | LockChannel(t: Tid)
    | UnlockForSleep(t: Tid) | Sleep(t: Tid) | Decrement(t: Tid) | Increment(t: Tid) | WakeOne(t: Tid) | Unlock(t: Tid)

  function Go(s: State, t: Tid, pc: Pc): State
    requires t < |s.pc|
  {
    s.(pc := s.pc[t := pc])
  }

  predicate StepLock(s: State, s': State, t: Tid)
    requires t < |s.pc|
  {
    var pc := s.pc[t];
    && s.semLock.None? && (pc.PEnter? || pc.VEnter?)
    && s' == Go(s, t, if pc.PEnter? then PTest(pc.woken) else VIncrement).(semLock := Some(t))
  }

  predicate StepLockChannel(s: State, s': State, t: Tid)
    requires t < |s.pc|
  {
    var pc := s.pc[t];
    && s.chanLock.None? && (pc.PBridge? || pc.VWake?)
    && s' == Go(s, t, if pc.PBridge? then PBoth else VPop).(chanLock := Some(t))
  }

  /** wchan_sleep: onto the channel, and only then is the channel unlocked. */
  predicate StepSleep(s: State, s': State, t: Tid)
    requires t < |s.pc|
  {
    s.pc[t].PSleepy? && s' == Go(s, t, Asleep).(chan := s.chan + [t], chanLock := None)
  }

  /** wchan_wakeone: the first sleeper, if any, is to test the count again. */
  predicate StepWakeOne(s: State, s': State, t: Tid)
    requires t < |s.pc|
  {
    && s.pc[t].VPop?
    && var s1 := Go(s, t, Leave).(chanLock := None);
       if s.chan == [] then s' == s1
       else s.chan[0] < |s.pc| && s' == Go(s1, s.chan[0], PEnter(true)).(chan := s.chan[1..])
  }

  predicate Step(s: State, l: Label, s': State) {
    && l.t < |s.pc|
    && var t := l.t;
       match l
       case CallP(_) => s.pc[t].Outside? && s' == Go(s, t, PEnter(false))
       case CallV(_) => s.pc[t].Outside? && s' == Go(s, t, VEnter)
       case Lock(_) => StepLock(s, s', t)
       case TestZero(_) => s.pc[t].PTest? && s.count == 0 && s' == Go(s, t, PBridge)
       case TestPositive(_) => s.pc[t].PTest? && s.count != 0 && s' == Go(s, t, PTake(s.pc[t].woken))
       case LockChannel(_) => StepLockChannel(s, s', t)
       case UnlockForSleep(_) => s.pc[t].PBoth? && s' == Go(s, t, PSleepy).(semLock := None)
       case Sleep(_) => StepSleep(s, s', t)
       case Decrement(_) => s.pc[t].PTake? && s' == Go(s, t, Leave).(count := s.count - 1)
       case Increment(_) => s.pc[t].VIncrement? && s' == Go(s, t, VWake).(count := s.count + 1)
       case WakeOne(_) => StepWakeOne(s, s', t)
       case Unlock(_) => s.pc[t].Leave? && s' == Go(s, t, Outside).(semLock := None)
  }

  // ----- the invariant -----

  predicate HoldsSem(pc: Pc) {
    pc.PTest? || pc.PBridge? || pc.PBoth? || pc.PTake? || pc.VIncrement? || pc.VWake? || pc.VPop? || pc.Leave?
  }

  predicate HoldsChannel(pc: Pc) { pc.PBoth? || pc.PSleepy? || pc.VPop? }

  /** Woken by a V and still to take its turn at the count. */
  predicate Retesting(pc: Pc) { (pc.PEnter? || pc.PTest? || pc.PTake?) && pc.woken }

  predicate GoingToSleep(pc: Pc) { pc.PBridge? || pc.PBoth? || pc.PSleepy? }

  /** Between V's increment and its wakeup. */
  predicate Waking(pc: Pc) { pc.VWake? || pc.VPop? }

  function Retesters(pcs: seq<Pc>): nat {
    if pcs == [] then 0 else Retesters(pcs[..|pcs| - 1]) + if Retesting(pcs[|pcs| - 1]) then 1 else 0
  }

  lemma {:induction false} RetestersUpdate(pcs: seq<Pc>, t: Tid, pc: Pc)
    requires t < |pcs|
    ensures Retesters(pcs[t := pc])
            == Retesters(pcs) - (if Retesting(pcs[t]) then 1 else 0) + (if Retesting(pc) then 1 else 0)
  {
    var n := |pcs| - 1;
    if t == n {
      assert pcs[t := pc][..n] == pcs[..n];
    } else {
      assert pcs[t := pc][..n] == pcs[..n][t := pc];
      RetestersUpdate(pcs[..n], t, pc);
    }
  }

  ghost predicate ThreadOk(s: State, t: Tid)
    requires t < |s.pc|
  {
    && (s.semLock == Some(t) <==> HoldsSem(s.pc[t]))
    && (s.chanLock == Some(t) <==> HoldsChannel(s.pc[t]))
    && (t in s.chan <==> s.pc[t].Asleep?)
    && (s.pc[t].PTake? ==> s.count > 0)
    && (s.pc[t].PBridge? || s.pc[t].PBoth? ==> s.count == 0)
  }

  ghost predicate LocksOk(s: State) {
    && (s.semLock.Some? ==> s.semLock.value < |s.pc|)
    && (s.chanLock.Some? ==> s.chanLock.value < |s.pc|)
    && (forall i :: 0 <= i < |s.chan| ==> s.chan[i] < |s.pc|)
    && (forall i, j :: 0 <= i < j < |s.chan| ==> s.chan[i] != s.chan[j])
  }

  ghost predicate SomeoneWaiting(s: State) {
    s.chan != [] || exists t :: 0 <= t < |s.pc| && GoingToSleep(s.pc[t])
  }

  /** V has counted its increment but not yet passed it on to a sleeper. */
  predicate WakeupPending(s: State) {
    s.semLock.Some? && s.semLock.value < |s.pc| && Waking(s.pc[s.semLock.value])
  }

  ghost predicate NoLostWakeup(s: State) {
    SomeoneWaiting(s) ==> s.count <= Retesters(s.pc) + if WakeupPending(s) then 1 else 0
  }

  ghost predicate ThreadsOk(s: State) {
    s.count >= 0 && LocksOk(s) && forall t :: 0 <= t < |s.pc| ==> ThreadOk(s, t)
  }

  ghost predicate Inv(s: State) {
    ThreadsOk(s) && NoLostWakeup(s)
  }

  // ----- steps that leave the channel's list alone -----

  /** Only thread t moves; locks pass only to or from t; the count changes only under the semaphore's lock. */
  predicate Local(s: State, s': State, t: Tid) {
    && t < |s.pc| && s'.chan == s.chan && |s'.pc| == |s.pc| && s'.pc == s.pc[t := s'.pc[t]]
    && Passes(s.semLock, s'.semLock, t) && Passes(s.chanLock, s'.chanLock, t)
    && (s'.count != s.count ==> HoldsSem(s.pc[t]))
    && !s.pc[t].Asleep? && !s'.pc[t].Asleep?
  }

  lemma LocalKeeps(s: State, s': State, t: Tid)
    requires ThreadsOk(s) && Local(s, s', t) && s'.count >= 0 && ThreadOk(s', t)
    ensures ThreadsOk(s')
  {
    assert ThreadOk(s, t);
    forall u | 0 <= u < |s'.pc| ensures ThreadOk(s', u) { assert ThreadOk(s, u); }
  }

  /** A local step after which nobody new is waiting. */
  lemma CalmKeeps(s: State, s': State, t: Tid)
    requires Inv(s) && Local(s, s', t) && (GoingToSleep(s'.pc[t]) ==> GoingToSleep(s.pc[t]))
    requires var n, n' := if Retesting(s.pc[t]) then 1 else 0, if Retesting(s'.pc[t]) then 1 else 0;
             var k, k' := if WakeupPending(s) then 1 else 0, if WakeupPending(s') then 1 else 0;
             s'.count - s.count <= n' - n + k' - k
    ensures NoLostWakeup(s')
  {
    RetestersUpdate(s.pc, t, s'.pc[t]);
    if SomeoneWaiting(s') {
      assert SomeoneWaiting(s) by {
        if s.chan == [] {
          var u :| 0 <= u < |s'.pc| && GoingToSleep(s'.pc[u]);
          assert GoingToSleep(s.pc[u]);
        }
      }
    }
  }

  lemma LocalStep(s: State, l: Label, s': State)
    requires Inv(s) && Step(s, l, s') && !l.Sleep? && !l.WakeOne? && !l.TestZero?
    ensures Inv(s')
  {
    hide NoLostWakeup;
    assert ThreadOk(s, l.t);
    LocalKeeps(s, s', l.t);
    CalmKeeps(s, s', l.t);
  }

  /** A thread that goes to sleep has seen a count of zero, which nobody can have passed on to another. */
  lemma TestZeroStep(s: State, l: Label, s': State)
    requires Inv(s) && Step(s, l, s') && l.TestZero?
    ensures Inv(s')
  {
    assert ThreadOk(s, l.t);
    LocalKeeps(s, s', l.t);
  }

  // ----- steps on the channel -----

  lemma SleepStep(s: State, s': State, t: Tid)
    requires Inv(s) && t < |s.pc| && StepSleep(s, s', t)
    ensures Inv(s')
  {
    assert ThreadOk(s, t);
    forall u | 0 <= u < |s'.pc| ensures ThreadOk(s', u) { assert ThreadOk(s, u); }
    assert GoingToSleep(s.pc[t]);
    RetestersUpdate(s.pc, t, Asleep);
  }

  /** V holds both locks: if the channel is empty, nobody is on the way to sleep either. */
  lemma NobodyWaiting(s: State, s': State, t: Tid)
    requires ThreadsOk(s) && t < |s.pc| && StepWakeOne(s, s', t) && s.chan == []
    ensures ThreadsOk(s') && !SomeoneWaiting(s')
  {
    assert ThreadOk(s, t);
    forall u | 0 <= u < |s'.pc| ensures ThreadOk(s', u) && !GoingToSleep(s'.pc[u]) { assert ThreadOk(s, u); }
  }

  lemma WakeStep(s: State, s': State, t: Tid)
    requires Inv(s) && t < |s.pc| && StepWakeOne(s, s', t) && s.chan != []
    ensures Inv(s')
  {
    var w := s.chan[0];
    assert ThreadOk(s, t) && ThreadOk(s, w);
    forall u | 0 <= u < |s'.pc| ensures ThreadOk(s', u) { assert ThreadOk(s, u); WokenLeft(s.chan, u); }
    var s1 := Go(s, t, Leave).(chanLock := None);
    RetestersUpdate(s.pc, t, Leave);
    RetestersUpdate(s1.pc, w, PEnter(true));
  }

  lemma WokenLeft(chan: seq<Tid>, u: Tid)
    requires chan != []
    ensures u in chan <==> u == chan[0] || u in chan[1..]
  {
  }

  lemma StepKeeps(s: State, l: Label, s': State)
    requires Inv(s) && Step(s, l, s')
    ensures Inv(s') && |s'.pc| == |s.pc|
  {
    if l.Sleep? {
      SleepStep(s, s', l.t);
    } else if l.WakeOne? {
      if s.chan == [] { NobodyWaiting(s, s', l.t); } else { WakeStep(s, s', l.t); }
    } else if l.TestZero? {
      TestZeroStep(s, l, s');
    } else {
      LocalStep(s, l, s');
    }
  }

  // ----- every run -----

  ghost predicate Init(s: State, initial: nat) {
    && s.count == initial && s.semLock == None && s.chanLock == None && s.chan == []
    && forall t :: 0 <= t < |s.pc| ==> s.pc[t] == Outside
  }

  ghost predicate IsRun(states: seq<State>, labels: seq<Label>, initial: nat) {
    && |states| == |labels| + 1 && Init(states[0], initial)
    && forall i :: 0 <= i < |labels| ==> Step(states[i], labels[i], states[i + 1])
  }

  function Increments(labels: seq<Label>): nat {
    if labels == [] then 0
    else Increments(labels[..|labels| - 1]) + if labels[|labels| - 1].Increment? then 1 else 0
  }

  function Decrements(labels: seq<Label>): nat {
    if labels == [] then 0
    else Decrements(labels[..|labels| - 1]) + if labels[|labels| - 1].Decrement? then 1 else 0
  }

  lemma CountChange(s: State, l: Label, s': State)
    requires Step(s, l, s')
    ensures s'.count == s.count + (if l.Increment? then 1 else 0) - (if l.Decrement? then 1 else 0)
  {
  }

  lemma {:induction false} RunInv(states: seq<State>, labels: seq<Label>, initial: nat, n: nat)
    requires IsRun(states, labels, initial) && n <= |labels|
    ensures Inv(states[n])
    ensures states[n].count == initial + Increments(labels[..n]) - Decrements(labels[..n])
  {
    hide Step, ThreadsOk;
    if n == 0 {
      assert Inv(states[0]) by { InitInv(states[0], initial); }
    } else {
      RunInv(states, labels, initial, n - 1);
      StepKeeps(states[n - 1], labels[n - 1], states[n]);
      CountChange(states[n - 1], labels[n - 1], states[n]);
      assert labels[..n][..n - 1] == labels[..n - 1];
    }
  }

  lemma InitInv(s: State, initial: nat)
    requires Init(s, initial)
    ensures Inv(s)
  {
  }

  /** The count is what the Vs and Ps so far make it, and never negative: the assertions in P and V hold. */
  lemma RunCount(states: seq<State>, labels: seq<Label>, initial: nat, n: nat)
    requires IsRun(states, labels, initial) && n <= |labels|
    ensures states[n].count == initial + Increments(labels[..n]) - Decrements(labels[..n]) >= 0
    ensures n < |labels| && labels[n].Decrement? ==> states[n].count > 0
  {
    hide NoLostWakeup;
    RunInv(states, labels, initial, n);
    if n < |labels| && labels[n].Decrement? {
      assert Step(states[n], labels[n], states[n + 1]);
      assert ThreadOk(states[n], labels[n].t);
    }
  }

  /**
   * No wakeup is lost: outside V's increment-to-wakeup window, sleepers leave no more of the count
   * than the woken will re-test.
   */
  lemma RunNoLostWakeup(states: seq<State>, labels: seq<Label>, initial: nat, n: nat)
    requires IsRun(states, labels, initial) && n <= |labels|
    requires states[n].chan != [] && forall t :: 0 <= t < |states[n].pc| ==> !Waking(states[n].pc[t])
    ensures states[n].count <= Retesters(states[n].pc)
  {
    RunInv(states, labels, initial, n);
  }

  /** When everybody is either outside or asleep and somebody sleeps, the count is zero. */
  lemma RunQuiescent(states: seq<State>, labels: seq<Label>, initial: nat, n: nat)
    requires IsRun(states, labels, initial) && n <= |labels|
    requires forall t :: 0 <= t < |states[n].pc| ==> states[n].pc[t].Outside? || states[n].pc[t].Asleep?
    requires exists t :: 0 <= t < |states[n].pc| && states[n].pc[t].Asleep?
    ensures states[n].count == 0
  {
    RunInv(states, labels, initial, n);
    var t :| 0 <= t < |states[n].pc| && states[n].pc[t].Asleep?;
    assert ThreadOk(states[n], t);
    NoRetesters(states[n].pc);
  }

  lemma {:induction false} NoRetesters(pcs: seq<Pc>)
    requires forall t :: 0 <= t < |pcs| ==> !Retesting(pcs[t])
    ensures Retesters(pcs) == 0
  {
    if pcs != [] { NoRetesters(pcs[..|pcs| - 1]); }
  }

  // ----- histories: who sleeps, and what each call has done -----

  /** The threads asleep, in the order in which they went to sleep, each V waking the first. */
  function Sleepers(labels: seq<Label>): seq<Tid> {
    if labels == [] then []
    else
      var before := Sleepers(labels[..|labels| - 1]);
      match labels[|labels| - 1]
      case Sleep(t) => before + [t]
      case WakeOne(_) => if before == [] then [] else before[1..]
      case _ => before
  }

  /**
   * The call a thread is in or was in last: how often it has decremented, and whether it has been
   * woken since it last slept; or how often it has incremented and woken.
   */
  datatype Call = NoCall | InP(taken: nat, woken: bool) | InV(given: nat, wakes: nat)

  function Then(call: Call, l: Label): Call {
    match l
    case CallP(_) => InP(0, false)
    case CallV(_) => InV(0, 0)
    case Sleep(_) => if call.InP? then InP(call.taken, false) else call
    case Decrement(_) => if call.InP? then InP(call.taken + 1, call.woken) else call
    case Increment(_) => if call.InV? then InV(call.given + 1, call.wakes) else call
    case WakeOne(_) => if call.InV? then InV(call.given, call.wakes + 1) else call
    case _ => call
  }

  function CallOf(labels: seq<Label>, t: Tid): Call {
    if labels == [] then NoCall
    else
      var before, l := CallOf(labels[..|labels| - 1], t), labels[|labels| - 1];
      if l.t == t then Then(before, l)
      else if l.WakeOne? && [t] <= Sleepers(labels[..|labels| - 1]) && before.InP? then InP(before.taken, true)
      else before
  }

  predicate InCall(pc: Pc, call: Call) {
    match pc
    case Outside => true
    case VEnter => call == InV(0, 0)
    case VIncrement => call == InV(0, 0)
    case VWake => call == InV(1, 0)
    case VPop => call == InV(1, 0)
    case Leave => (call.InP? && call.taken == 1) || call == InV(1, 1)
    case PEnter(woken) => call == InP(0, woken)
    case PTest(woken) => call == InP(0, woken)
    case PTake(woken) => call == InP(0, woken)
    case Asleep => call == InP(0, false)
    case _ => call.InP? && call.taken == 0
  }

  lemma CallStep(s: State, l: Label, s': State, labels: seq<Label>, u: Tid)
    requires Inv(s) && Step(s, l, s') && u < |s.pc| && InCall(s.pc[u], CallOf(labels, u)) && s.chan == Sleepers(labels)
    ensures u < |s'.pc| && InCall(s'.pc[u], CallOf(labels + [l], u))
  {
    assert ThreadOk(s, u) && ThreadOk(s, l.t);
    hide Inv, CallOf, Sleepers, InCall, Step;
    CallOfMore(labels, l, u);
    if u == l.t { OwnCall(s, l, s', CallOf(labels, u)); } else { OtherCall(s, l, s', CallOf(labels, u), u); }
  }

  lemma OwnCall(s: State, l: Label, s': State, call: Call)
    requires Step(s, l, s') && InCall(s.pc[l.t], call) && ThreadOk(s, l.t)
    ensures l.t < |s'.pc| && InCall(s'.pc[l.t], Then(call, l))
  {
  }

  lemma OtherCall(s: State, l: Label, s': State, call: Call, u: Tid)
    requires Step(s, l, s') && u < |s.pc| && u != l.t && InCall(s.pc[u], call) && ThreadOk(s, u)
    ensures u < |s'.pc|
    ensures InCall(s'.pc[u], if l.WakeOne? && [u] <= s.chan && call.InP? then InP(call.taken, true) else call)
  {
    if l.WakeOne? && s.chan != [] { assert s.chan[0] == u <==> [u] <= s.chan; }
  }

  lemma CallOfMore(labels: seq<Label>, l: Label, u: Tid)
    ensures var call := CallOf(labels, u);
            CallOf(labels + [l], u) == if l.t == u then Then(call, l)
                                       else if l.WakeOne? && [u] <= Sleepers(labels) && call.InP?
                                       then InP(call.taken, true)
                                       else call
  {
    assert (labels + [l])[..|labels|] == labels;
  }

  lemma SleepersStep(s: State, l: Label, s': State, labels: seq<Label>)
    requires Step(s, l, s') && s.chan == Sleepers(labels)
    ensures s'.chan == Sleepers(labels + [l])
  {
    assert (labels + [l])[..|labels|] == labels;
  }

  lemma {:induction false} RunCalls(states: seq<State>, labels: seq<Label>, initial: nat, n: nat)
    requires IsRun(states, labels, initial) && n <= |labels|
    ensures states[n].chan == Sleepers(labels[..n])
    ensures forall u :: 0 <= u < |states[n].pc| ==> InCall(states[n].pc[u], CallOf(labels[..n], u))
  {
    hide Step, Inv, CallOf, Sleepers, InCall;
    if n == 0 {
      assert labels[..0] == [];
      CallsInit(states[0], initial);
    } else {
      RunCalls(states, labels, initial, n - 1);
      RunInv(states, labels, initial, n - 1);
      assert labels[..n] == labels[..n - 1] + [labels[n - 1]];
      SleepersStep(states[n - 1], labels[n - 1], states[n], labels[..n - 1]);
      StepKeeps(states[n - 1], labels[n - 1], states[n]);
      forall u | 0 <= u < |states[n].pc| ensures InCall(states[n].pc[u], CallOf(labels[..n], u)) {
        CallStep(states[n - 1], labels[n - 1], states[n], labels[..n - 1], u);
      }
    }
  }

  lemma CallsInit(s: State, initial: nat)
    requires Init(s, initial)
    ensures s.chan == Sleepers([]) && forall u :: 0 <= u < |s.pc| ==> InCall(s.pc[u], CallOf([], u))
  {
  }

  /**
   * In every run, a V wakes the thread that has slept longest, if there is one, and no other; a P
   * returns having decremented the count once, and a V having incremented it once and woken once.
   */
  lemma RunFifo(states: seq<State>, labels: seq<Label>, initial: nat, n: nat)
    requires IsRun(states, labels, initial) && n < |labels|
    ensures states[n].chan == Sleepers(labels[..n])
    ensures labels[n].WakeOne? ==> forall u :: 0 <= u < |states[n].pc| == |states[n + 1].pc| && u != labels[n].t ==>
              states[n + 1].pc[u] == if [u] <= Sleepers(labels[..n]) then PEnter(true) else states[n].pc[u]
    ensures labels[n].Unlock? ==>
              var call := CallOf(labels[..n], labels[n].t); (call.InP? && call.taken == 1) || call == InV(1, 1)
    ensures forall u: Tid :: u < |states[n].pc| && Retesting(states[n].pc[u]) ==>
              var call := CallOf(labels[..n], u); call.InP? && call.woken && call.taken == 0
  {
    hide CallOf, Sleepers, Init;
    RunCalls(states, labels, initial, n);
    assert Step(states[n], labels[n], states[n + 1]);
    assert InCall(states[n].pc[labels[n].t], CallOf(labels[..n], labels[n].t));
  }

  // ----- progress -----

  /** The steps a thread has still to make, at most, before it returns or sleeps. */
  function Steps(pc: Pc): nat {
    match pc
    case Outside => 0
    case Asleep => 0
    case Leave => 1
    case PSleepy => 1
    case PBoth => 2
    case PTake(_) => 2
    case PBridge => 3
    case PTest(_) => 4
    case PEnter(_) => 5
    case VPop => 2
    case VWake => 3
    case VIncrement => 4
    case VEnter => 5
  }

  /** Inside a call every step brings a thread nearer to its return or to sleep. */
  lemma StepProgress(s: State, l: Label, s': State)
    requires Inv(s) && Step(s, l, s') && !l.CallP? && !l.CallV?
    ensures |s'.pc| == |s.pc| && Steps(s'.pc[l.t]) < Steps(s.pc[l.t])
    ensures forall u: Tid :: u < |s.pc| && u != l.t && s'.pc[u] != s.pc[u] ==> l.WakeOne? && s.pc[u].Asleep?
  {
    assert ThreadOk(s, l.t);
    if l.WakeOne? && s.chan != [] { assert ThreadOk(s, s.chan[0]); }
  }

  ghost predicate CanStep(s: State, t: Tid) {
    exists l: Label, s': State :: l.t == t && !l.CallP? && !l.CallV? && Step(s, l, s')
  }

  lemma Enabled(s: State, l: Label, s': State)
    requires Step(s, l, s') && !l.CallP? && !l.CallV?
    ensures CanStep(s, l.t)
  {
  }

  /** A thread inside a call can step, unless a lock it needs is taken. */
  lemma StepExists(s: State, t: Tid)
    requires Inv(s) && t < |s.pc| && Steps(s.pc[t]) > 0
    requires s.pc[t].PEnter? || s.pc[t].VEnter? ==> s.semLock.None?
    requires s.pc[t].PBridge? || s.pc[t].VWake? ==> s.chanLock.None?
    ensures CanStep(s, t)
  {
    hide CanStep, Inv;
    match s.pc[t]
    case PEnter(w) => Enabled(s, Lock(t), Go(s, t, PTest(w)).(semLock := Some(t)));
    case VEnter => Enabled(s, Lock(t), Go(s, t, VIncrement).(semLock := Some(t)));
    case PTest(w) =>
      if s.count == 0 {
        Enabled(s, TestZero(t), Go(s, t, PBridge));
      } else {
        Enabled(s, TestPositive(t), Go(s, t, PTake(w)));
      }
    case PBridge => Enabled(s, LockChannel(t), Go(s, t, PBoth).(chanLock := Some(t)));
    case VWake => Enabled(s, LockChannel(t), Go(s, t, VPop).(chanLock := Some(t)));
    case PBoth => Enabled(s, UnlockForSleep(t), Go(s, t, PSleepy).(semLock := None));
    case PSleepy => Enabled(s, Label.Sleep(t), Go(s, t, Asleep).(chan := s.chan + [t], chanLock := None));
    case PTake(_) => Enabled(s, Decrement(t), Go(s, t, Leave).(count := s.count - 1));
    case VIncrement => Enabled(s, Increment(t), Go(s, t, VWake).(count := s.count + 1));
    case VPop => CanWake(s, t);
    case Leave => Enabled(s, Unlock(t), Go(s, t, Outside).(semLock := None));
  }

  lemma CanWake(s: State, t: Tid)
    requires Inv(s) && t < |s.pc| && s.pc[t].VPop?
    ensures CanStep(s, t)
  {
    hide CanStep;
    var s1 := Go(s, t, Leave).(chanLock := None);
    if s.chan == [] {
      Enabled(s, WakeOne(t), s1);
    } else {
      Enabled(s, WakeOne(t), Go(s1, s.chan[0], PEnter(true)).(chan := s.chan[1..]));
    }
  }

  /** In every run, while any thread is inside a call and awake, some such thread can step: no deadlock. */
  lemma RunNoDeadlock(states: seq<State>, labels: seq<Label>, initial: nat, n: nat, t: Tid)
    requires IsRun(states, labels, initial) && n <= |labels| && t < |states[n].pc| && Steps(states[n].pc[t]) > 0
    ensures exists u: Tid :: u < |states[n].pc| && Steps(states[n].pc[u]) > 0 && CanStep(states[n], u)
  {
    hide CanStep;
    RunInv(states, labels, initial, n);
    var s := states[n];
    var u := if s.chanLock.Some? then s.chanLock.value else if s.semLock.Some? then s.semLock.value else t;
    assert u < |s.pc| && ThreadOk(s, u) && ThreadOk(s, t);
    StepExists(s, u);
  }
}
