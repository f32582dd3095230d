/**
 * The cat and mouse problem: the two simulations of kern/synchprobs/catmouse.c, checked
 * against the monitor in kern/synchprobs/bowls.c. Any number of cats, mice and bowls.
 *
 * lockRound and lockBowl are mutual-exclusion locks; a thread in cv_wait has released its
 * lock and may come back for it at any time, woken or not. A critical section of the monitor,
 * guarded by its own mutex, is one step. The final writes of each thread are made unlocked.
 */
module CatMouse {
  import opened Common

  datatype Params = Params(numBowls: nat, numLoops: nat, catTime: int, mouseTime: int, allowedTime: int)

  datatype Pair = Pair(cats: int, mice: int)

  function Get(p: Pair, cat: bool): int { if cat then p.cats else p.mice }

  function Add(p: Pair, cat: bool, n: int): Pair {
    if cat then p.(cats := p.cats + n) else p.(mice := p.mice + n)
  }

  function Letter(cat: bool): char { if cat then 'c' else 'm' }

  /** Where a thread is in one turn of its loop; x is the bowl, from 1, that it has chosen. */
  datatype Pc =
    | Sleep
    | WantRound | TestRound | EnterRound | LeaveEntry
    | WantBowl | TestBowl | PickBowl | CountDown(x: nat) | LeaveBowl(x: nat)
    | EatStart(x: nat) | Eating(x: nat)
    | WantRoundAgain(x: nat) | WantBowlAgain(x: nat) | CountUp(x: nat) | FreeBowl(x: nat) | Signal
    | Tally | Switch | LeaveRound
    | FinalTurn | FinalDone | Finished

  datatype Thread = Thread(cat: bool, turns: nat, pc: Pc)

  /**
   * `inRound` is CATS_EATING and MICE_EATING; `bowls` and `eating` are the monitor's own
   * record; `panicked` is set when the monitor panics or an assertion fails.
   */
  datatype State = State(
    lockRound: Option<Tid>, lockBowl: Option<Tid>, inRound: Pair, catsEat: bool, done: bool, timeTaken: int,
    availableBowls: int, bowlStates: seq<char>, bowls: seq<char>, eating: Pair, panicked: bool, threads: seq<Thread>)

  function Go(s: State, t: Tid, pc: Pc): State
    requires t < |s.threads|
  {
    s.(threads := s.threads[t := s.threads[t].(pc := pc)])
  }

  // ----- the search for a bowl -----

  /** Where the search stops: at the first free bowl, or at the last bowl whatever its state. */
  function FirstFree(states: seq<char>, x: nat): (r: nat)
    requires 1 <= x <= |states|
    ensures x <= r <= |states| && (r < |states| ==> states[r - 1] == '-')
    ensures (exists b :: x <= b + 1 <= |states| && states[b] == '-') ==> states[r - 1] == '-'
    decreases |states| - x
  {
    if x < |states| && states[x - 1] != '-' then FirstFree(states, x + 1) else x
  }

  method FindBowl(bowlStates: array<char>) returns (x: nat)
    requires bowlStates.Length > 0
    ensures x == FirstFree(bowlStates[..], 1)
    ensures 1 <= x <= bowlStates.Length && forall b :: 0 <= b < x - 1 ==> bowlStates[b] != '-'
    ensures bowlStates[x - 1] != '-' ==> forall b :: 0 <= b < bowlStates.Length ==> bowlStates[b] != '-'
  {
    x := 1;
    while x < bowlStates.Length && bowlStates[x - 1] != '-'
      invariant 1 <= x <= bowlStates.Length && forall b :: 0 <= b < x - 1 ==> bowlStates[b] != '-'
      invariant FirstFree(bowlStates[..], 1) == FirstFree(bowlStates[..], x)
    {
      x := x + 1;
    }
  }

  // ----- steps -----

  datatype LockOp = Keep | Grab | Drop

  /**
   * Program order where a thread only takes or releases a lock: what it does to lockRound and to
   * lockBowl, and where it then is.
   */
  function LockStep(pc: Pc): Option<(LockOp, LockOp, Pc)> {
    match pc
    case Sleep => Some((Keep, Keep, WantRound))
    case WantRound => Some((Grab, Keep, TestRound))
    case LeaveEntry => Some((Drop, Keep, WantBowl))
    case WantBowl => Some((Keep, Grab, TestBowl))
    case LeaveBowl(x) => Some((Keep, Drop, EatStart(x)))
    case WantRoundAgain(x) => Some((Grab, Keep, WantBowlAgain(x)))
    case WantBowlAgain(x) => Some((Keep, Grab, CountUp(x)))
    case Signal => Some((Keep, Drop, Tally))
    case _ => None
  }

  predicate LockChange(lock: Option<Tid>, op: LockOp, t: Tid, lock': Option<Tid>) {
    match op
    case Keep => lock' == lock
    case Grab => lock == None && lock' == Some(t)
    case Drop => lock' == None
  }

  predicate StepLock(s: State, t: Tid, s': State)
    requires t < |s.threads|
  {
    && LockStep(s.threads[t].pc).Some?
    && var (r, b, pc) := LockStep(s.threads[t].pc).value;
       && LockChange(s.lockRound, r, t, s'.lockRound) && LockChange(s.lockBowl, b, t, s'.lockBowl)
       && s' == Go(s, t, pc).(lockRound := s'.lockRound, lockBowl := s'.lockBowl)
  }

  /** The other species must be out and it must be this one's turn; otherwise cv_wait gives the lock up. */
  predicate StepTestRound(s: State, t: Tid, s': State)
    requires t < |s.threads|
  {
    var th := s.threads[t];
    && th.pc.TestRound?
    && if Get(s.inRound, !th.cat) != 0 || s.catsEat != th.cat
       then s' == Go(s, t, WantRound).(lockRound := None)
       else s' == Go(s, t, EnterRound)
  }

  predicate StepEnterRound(s: State, t: Tid, s': State)
    requires t < |s.threads|
  {
    s.threads[t].pc.EnterRound? && s' == Go(s, t, LeaveEntry).(inRound := Add(s.inRound, s.threads[t].cat, 1))
  }

  predicate StepTestBowl(s: State, t: Tid, s': State)
    requires t < |s.threads|
  {
    && s.threads[t].pc.TestBowl?
    && if s.availableBowls == 0 then s' == Go(s, t, WantBowl).(lockBowl := None) else s' == Go(s, t, PickBowl)
  }

  predicate StepPickBowl(s: State, t: Tid, s': State)
    requires t < |s.threads|
  {
    && s.threads[t].pc.PickBowl? && |s.bowlStates| > 0
    && var x := FirstFree(s.bowlStates, 1);
       if s.bowlStates[x - 1] != '-' then s' == s.(panicked := true)
       else s' == Go(s, t, CountDown(x)).(bowlStates := s.bowlStates[x - 1 := Letter(s.threads[t].cat)])
  }

  predicate StepCountDown(s: State, t: Tid, s': State)
    requires t < |s.threads|
  {
    var pc := s.threads[t].pc;
    pc.CountDown? && s' == Go(s, t, LeaveBowl(pc.x)).(availableBowls := s.availableBowls - 1)
  }

  /** The first critical section of cat_eat and mouse_eat, with its checks. */
  predicate StepEatStart(s: State, t: Tid, s': State)
    requires t < |s.threads|
  {
    var th := s.threads[t];
    && th.pc.EatStart?
    && var x := th.pc.x;
       if x == 0 || x > |s.bowls| || s.bowls[x - 1] != '-' || Get(s.eating, !th.cat) != 0
       then s' == s.(panicked := true)
       else s' == Go(s, t, Eating(x)).(eating := Add(s.eating, th.cat, 1), bowls := s.bowls[x - 1 := Letter(th.cat)])
  }

  /** The second critical section, with its checks. */
  predicate StepEatEnd(s: State, t: Tid, s': State)
    requires t < |s.threads|
  {
    var th := s.threads[t];
    && th.pc.Eating?
    && var x := th.pc.x;
       if x == 0 || x > |s.bowls| || s.bowls[x - 1] != Letter(th.cat) || Get(s.eating, th.cat) <= 0
       then s' == s.(panicked := true)
       else s' == Go(s, t, WantRoundAgain(x)).(eating := Add(s.eating, th.cat, -1), bowls := s.bowls[x - 1 := '-'])
  }

  predicate StepCountUp(s: State, t: Tid, s': State)
    requires t < |s.threads|
  {
    var pc := s.threads[t].pc;
    pc.CountUp? && s' == Go(s, t, FreeBowl(pc.x)).(availableBowls := s.availableBowls + 1)
  }

  predicate StepFreeBowl(s: State, t: Tid, s': State)
    requires t < |s.threads|
  {
    var pc := s.threads[t].pc;
    pc.FreeBowl? && 0 < pc.x <= |s.bowlStates| && s' == Go(s, t, Signal).(bowlStates := s.bowlStates[pc.x - 1 := '-'])
  }

  predicate StepTally(s: State, t: Tid, s': State, p: Params)
    requires t < |s.threads|
  {
    var th := s.threads[t];
    && th.pc.Tally?
    && s' == Go(s, t, Switch).(timeTaken := s.timeTaken + (if th.cat then p.catTime else p.mouseTime),
                               inRound := Add(s.inRound, th.cat, -1))
  }

  /** The turn passes to the other species when its time is up. */
  predicate StepSwitch(s: State, t: Tid, s': State, p: Params)
    requires t < |s.threads|
  {
    && s.threads[t].pc.Switch?
    && if s.timeTaken >= p.allowedTime && !s.done
       then s' == Go(s, t, LeaveRound).(catsEat := !s.threads[t].cat, timeTaken := 0)
       else s' == Go(s, t, LeaveRound)
  }

  predicate StepLeaveRound(s: State, t: Tid, s': State, p: Params)
    requires t < |s.threads|
  {
    var th := s.threads[t];
    && th.pc.LeaveRound?
    && s' == s.(lockRound := None,
                threads := s.threads[t := Thread(th.cat, th.turns + 1,
                    if th.turns + 1 < p.numLoops then Sleep else FinalTurn)])
  }

  /** The last two writes of a thread, made without a lock. */
  predicate StepFinal(s: State, t: Tid, s': State)
    requires t < |s.threads|
  {
    || (s.threads[t].pc.FinalTurn? && s' == Go(s, t, FinalDone).(catsEat := !s.threads[t].cat))
    || (s.threads[t].pc.FinalDone? && s' == Go(s, t, Finished).(done := true))
  }

  predicate Step(s: State, t: Tid, s': State, p: Params) {
    && t < |s.threads| && !s.panicked
    && (StepLock(s, t, s') || StepTestRound(s, t, s') || StepEnterRound(s, t, s') || StepTestBowl(s, t, s')
        || StepPickBowl(s, t, s') || StepCountDown(s, t, s') || StepEatStart(s, t, s')
        || StepEatEnd(s, t, s') || StepCountUp(s, t, s') || StepFreeBowl(s, t, s')
        || StepTally(s, t, s', p) || StepSwitch(s, t, s', p) || StepLeaveRound(s, t, s', p) || StepFinal(s, t, s'))
  }

  // ----- counting -----

  predicate InRound(pc: Pc) {
    !(pc.Sleep? || pc.WantRound? || pc.TestRound? || pc.EnterRound? || pc.Switch? || pc.LeaveRound?
      || pc.FinalTurn? || pc.FinalDone? || pc.Finished?)
  }

  predicate Counts(th: Thread, cat: bool, eating: bool) {
    th.cat == cat && if eating then th.pc.Eating? else InRound(th.pc)
  }

  /** How many cats, or mice, are in the round; or eating. */
  function Number(ths: seq<Thread>, cat: bool, eating: bool): nat {
    if ths == [] then 0
    else Number(ths[..|ths| - 1], cat, eating) + if Counts(ths[|ths| - 1], cat, eating) then 1 else 0
  }

  lemma {:induction false} NumberUpdate(ths: seq<Thread>, t: Tid, th: Thread, cat: bool, eating: bool)
    requires t < |ths|
    ensures Number(ths[t := th], cat, eating)
            == Number(ths, cat, eating) - (if Counts(ths[t], cat, eating) then 1 else 0)
               + (if Counts(th, cat, eating) then 1 else 0)
  {
    var n := |ths| - 1;
    if t == n {
      assert ths[t := th][..n] == ths[..n];
    } else {
      assert ths[t := th][..n] == ths[..n][t := th];
      NumberUpdate(ths[..n], t, th, cat, eating);
    }
  }

  lemma {:induction false} NumberPositive(ths: seq<Thread>, t: Tid, cat: bool, eating: bool)
    requires t < |ths| && Counts(ths[t], cat, eating)
    ensures Number(ths, cat, eating) > 0
  {
    if t < |ths| - 1 { NumberPositive(ths[..|ths| - 1], t, cat, eating); }
  }

  lemma {:induction false} EatingInRound(ths: seq<Thread>, cat: bool)
    ensures Number(ths, cat, true) <= Number(ths, cat, false)
  {
    if ths != [] { EatingInRound(ths[..|ths| - 1], cat); }
  }

  function Free(states: seq<char>): nat {
    if states == [] then 0 else Free(states[..|states| - 1]) + if states[|states| - 1] == '-' then 1 else 0
  }

  lemma {:induction false} FreeUpdate(states: seq<char>, b: nat, ch: char)
    requires b < |states|
    ensures Free(states[b := ch]) == Free(states) - (if states[b] == '-' then 1 else 0) + (if ch == '-' then 1 else 0)
  {
    var n := |states| - 1;
    if b == n {
      assert states[b := ch][..n] == states[..n];
    } else {
      assert states[b := ch][..n] == states[..n][b := ch];
      FreeUpdate(states[..n], b, ch);
    }
  }

  lemma {:induction false} FreeExists(states: seq<char>)
    requires Free(states) > 0
    ensures exists b :: 0 <= b < |states| && states[b] == '-'
  {
    var n := |states| - 1;
    if states[n] != '-' {
      FreeExists(states[..n]);
      var b :| 0 <= b < n && states[..n][b] == '-';
      assert states[b] == '-';
    }
  }

  // ----- the invariant -----

  predicate HoldsRound(pc: Pc) {
    pc.TestRound? || pc.EnterRound? || pc.LeaveEntry? || pc.WantBowlAgain? || pc.CountUp? || pc.FreeBowl? || pc.Signal?
    || pc.Tally? || pc.Switch? || pc.LeaveRound?
  }

  predicate HoldsBowlLock(pc: Pc) {
    pc.TestBowl? || pc.PickBowl? || pc.CountDown? || pc.LeaveBowl? || pc.CountUp? || pc.FreeBowl? || pc.Signal?
  }

  /** The bowl a thread has marked as its own. */
  function Bowl(pc: Pc): Option<nat> {
    match pc
    case CountDown(x) => Some(x)
    case LeaveBowl(x) => Some(x)
    case EatStart(x) => Some(x)
    case Eating(x) => Some(x)
    case WantRoundAgain(x) => Some(x)
    case WantBowlAgain(x) => Some(x)
    case CountUp(x) => Some(x)
    case FreeBowl(x) => Some(x)
    case _ => None
  }

  predicate LockOk(s: State, t: Tid)
    requires t < |s.threads|
  {
    && (s.lockRound == Some(t) <==> HoldsRound(s.threads[t].pc))
    && (s.lockBowl == Some(t) <==> HoldsBowlLock(s.threads[t].pc))
  }

  ghost predicate LocksOk(s: State) {
    && (forall t :: 0 <= t < |s.threads| ==> LockOk(s, t))
    && (s.lockRound.Some? ==> s.lockRound.value < |s.threads|)
    && (s.lockBowl.Some? ==> s.lockBowl.value < |s.threads|)
  }

  /** The shared counters are what they claim, and the two species are never in the round together. */
  ghost predicate RoundOk(s: State) {
    && (forall cat :: Get(s.inRound, cat) == Number(s.threads, cat, false))
    && (forall cat :: Get(s.eating, cat) == Number(s.threads, cat, true))
    && (s.inRound.cats == 0 || s.inRound.mice == 0)
    && (forall t :: 0 <= t < |s.threads| && s.threads[t].pc.EnterRound? ==> Get(s.inRound, !s.threads[t].cat) == 0)
  }

  /** Between the two writes that take or return a bowl, the count is one ahead. */
  function Ahead(s: State): int {
    if s.lockBowl.Some? && s.lockBowl.value < |s.threads|
       && (s.threads[s.lockBowl.value].pc.CountDown? || s.threads[s.lockBowl.value].pc.FreeBowl?) then 1 else 0
  }

  ghost predicate FreeOk(s: State) {
    && s.availableBowls == Free(s.bowlStates) + Ahead(s)
    && (forall t :: 0 <= t < |s.threads| && s.threads[t].pc.PickBowl? ==> s.availableBowls > 0)
  }

  /** Thread t's bowl is marked with its letter, and the monitor sees it while t eats. */
  predicate BowlOk(s: State, t: Tid)
    requires t < |s.threads|
  {
    var b, th := Bowl(s.threads[t].pc), s.threads[t];
    b.Some? ==>
      && 0 < b.value <= |s.bowlStates| == |s.bowls|
      && s.bowlStates[b.value - 1] == Letter(th.cat)
      && s.bowls[b.value - 1] == (if th.pc.Eating? then Letter(th.cat) else '-')
  }

  predicate Owns(s: State, t: Tid, b: nat) {
    t < |s.threads| && Bowl(s.threads[t].pc) == Some(b + 1)
  }

  predicate OneOwner(s: State, t: Tid, u: Tid)
    requires t < |s.threads| && u < |s.threads|
  {
    Bowl(s.threads[t].pc).Some? && Bowl(s.threads[t].pc) == Bowl(s.threads[u].pc) ==> t == u
  }

  ghost predicate Occupied(s: State, b: nat)
    requires b < |s.bowlStates| == |s.bowls|
  {
    (s.bowlStates[b] != '-' || s.bowls[b] != '-') ==> exists t :: Owns(s, t, b)
  }

  ghost predicate BowlsOk(s: State) {
    && |s.bowlStates| == |s.bowls| > 0
    && (forall t :: 0 <= t < |s.threads| ==> BowlOk(s, t))
    && (forall t, u :: 0 <= t < |s.threads| && 0 <= u < |s.threads| ==> OneOwner(s, t, u))
    && (forall b :: 0 <= b < |s.bowlStates| ==> Occupied(s, b))
  }

  ghost predicate Inv(s: State) {
    !s.panicked && LocksOk(s) && RoundOk(s) && FreeOk(s) && BowlsOk(s)
  }

  // ----- every step keeps the invariant, and none panics -----

  /** Only thread t moves, keeping its species; the locks pass only to or from t. */
  predicate Only(s: State, s': State, t: Tid) {
    && t < |s.threads| == |s'.threads| && s'.threads == s.threads[t := s'.threads[t]]
    && s'.threads[t].cat == s.threads[t].cat
    && Passes(s.lockRound, s'.lockRound, t) && Passes(s.lockBowl, s'.lockBowl, t)
    && LockOk(s', t)
  }

  lemma LocksKeep(s: State, s': State, t: Tid)
    requires LocksOk(s) && Only(s, s', t)
    ensures LocksOk(s')
  {
    forall u | 0 <= u < |s'.threads| ensures LockOk(s', u) { assert LockOk(s, u); }
  }

  /** Two threads are never inside the same lock. */
  lemma Exclusive(s: State, t: Tid, u: Tid)
    requires LocksOk(s) && t < |s.threads| && u < |s.threads|
    ensures HoldsRound(s.threads[t].pc) && HoldsRound(s.threads[u].pc) ==> t == u
    ensures HoldsBowlLock(s.threads[t].pc) && HoldsBowlLock(s.threads[u].pc) ==> t == u
  {
    assert LockOk(s, t) && LockOk(s, u);
  }

  function Flag(b: bool): nat { if b then 1 else 0 }

  /**
   * The counters follow thread t in and out of the round, in under lockRound with nobody of the other
   * species in it.
   */
  predicate RoundMove(s: State, s': State, t: Tid)
    requires t < |s.threads| == |s'.threads|
  {
    var pc, pc', cat := s.threads[t].pc, s'.threads[t].pc, s.threads[t].cat;
    && s'.inRound == Add(s.inRound, cat, Flag(InRound(pc')) - Flag(InRound(pc)))
    && s'.eating == Add(s.eating, cat, Flag(pc'.Eating?) - Flag(pc.Eating?))
    && (InRound(pc') != InRound(pc) ==> HoldsRound(pc))
    && (InRound(pc') && !InRound(pc) ==> pc.EnterRound?)
    && (pc'.EnterRound? ==> Get(s.inRound, !cat) == 0)
  }

  lemma RoundKeep(s: State, s': State, t: Tid)
    requires LocksOk(s) && RoundOk(s) && Only(s, s', t) && RoundMove(s, s', t)
    ensures RoundOk(s')
  {
    forall cat
      ensures Get(s'.inRound, cat) == Number(s'.threads, cat, false)
      ensures Get(s'.eating, cat) == Number(s'.threads, cat, true)
    {
      hide LocksOk, LockOk, InRound, HoldsRound, HoldsBowlLock;
      NumberUpdate(s.threads, t, s'.threads[t], cat, false);
      NumberUpdate(s.threads, t, s'.threads[t], cat, true);
    }
    RoundExclusive(s, s', t);
  }

  lemma RoundExclusive(s: State, s': State, t: Tid)
    requires LocksOk(s) && RoundOk(s) && Only(s, s', t) && RoundMove(s, s', t)
    requires forall cat :: Get(s'.inRound, cat) == Number(s'.threads, cat, false)
    ensures s'.inRound.cats == 0 || s'.inRound.mice == 0
    ensures forall u :: 0 <= u < |s'.threads| && s'.threads[u].pc.EnterRound? ==>
          Get(s'.inRound, !s'.threads[u].cat) == 0
  {
    hide LocksOk, LockOk, InRound, HoldsBowlLock;
    var pc, pc', cat := s.threads[t].pc, s'.threads[t].pc, s.threads[t].cat;
    assert Get(s'.inRound, cat) == Number(s'.threads, cat, false) >= 0;
    forall u | 0 <= u < |s'.threads| && s'.threads[u].pc.EnterRound? ensures Get(s'.inRound, !s'.threads[u].cat) == 0 {
      if InRound(pc') != InRound(pc) && u != t { Exclusive(s, t, u); }
    }
  }

  /** Nothing about the bowls changes. */
  predicate SameBowls(s: State, s': State, t: Tid)
    requires t < |s.threads| == |s'.threads|
  {
    var pc, pc' := s.threads[t].pc, s'.threads[t].pc;
    s'.bowlStates == s.bowlStates && s'.bowls == s.bowls && Bowl(pc') == Bowl(pc) && pc'.Eating? == pc.Eating?
  }

  lemma SameBowlsKeep(s: State, s': State, t: Tid)
    requires BowlsOk(s) && Only(s, s', t) && SameBowls(s, s', t)
    ensures BowlsOk(s')
  {
    forall u | 0 <= u < |s'.threads| ensures BowlOk(s', u) { assert BowlOk(s, u); }
    forall u, w | 0 <= u < |s'.threads| && 0 <= w < |s'.threads|
      ensures OneOwner(s', u, w)
    {
      assert OneOwner(s, u, w);
    }
    forall b | 0 <= b < |s'.bowlStates| ensures Occupied(s', b) { OccupiedKeep(s, s', t, b); }
  }

  lemma OccupiedKeep(s: State, s': State, t: Tid, b: nat)
    requires BowlsOk(s) && Only(s, s', t) && |s'.bowlStates| == |s'.bowls| == |s.bowls| && b < |s.bowls|
    requires s'.bowlStates[b] == s.bowlStates[b] && s'.bowls[b] == s.bowls[b]
    requires Bowl(s.threads[t].pc) == Some(b + 1) ==> Bowl(s'.threads[t].pc) == Some(b + 1)
    ensures Occupied(s', b)
  {
    assert Occupied(s, b);
    if s'.bowlStates[b] != '-' || s'.bowls[b] != '-' {
      var u :| Owns(s, u, b);
      assert Owns(s', u, b);
    }
  }

  predicate SameFree(s: State, s': State, t: Tid)
    requires t < |s.threads| == |s'.threads|
  {
    var pc, pc' := s.threads[t].pc, s'.threads[t].pc;
    && s'.bowlStates == s.bowlStates && s'.availableBowls == s.availableBowls
    && !pc.CountDown? && !pc.FreeBowl? && !pc'.CountDown? && !pc'.FreeBowl?
    && (pc'.PickBowl? ==> s.availableBowls != 0)
  }

  lemma SameFreeKeep(s: State, s': State, t: Tid)
    requires LocksOk(s) && FreeOk(s) && Only(s, s', t) && SameFree(s, s', t)
    ensures FreeOk(s')
  {
  }

  /** Neither the count of free bowls nor the round nor a bowl is affected. */
  predicate Calm(pc: Pc, pc': Pc) {
    && InRound(pc') == InRound(pc) && pc'.Eating? == pc.Eating? && Bowl(pc') == Bowl(pc)
    && !pc'.EnterRound? && !pc'.PickBowl?
    && !pc.CountDown? && !pc.FreeBowl? && !pc'.CountDown? && !pc'.FreeBowl?
  }

  lemma CalmKeeps(s: State, t: Tid, s': State)
    requires Inv(s) && Only(s, s', t) && Calm(s.threads[t].pc, s'.threads[t].pc)
    requires s' == s.(threads := s'.threads, lockRound := s'.lockRound, lockBowl := s'.lockBowl, catsEat := s'.catsEat,
                      done := s'.done, timeTaken := s'.timeTaken)
    ensures Inv(s')
  {
    hide RoundOk, FreeOk, BowlsOk, LocksOk, LockOk, InRound, Bowl, HoldsRound, HoldsBowlLock;
    LocksKeep(s, s', t);
    RoundKeep(s, s', t);
    SameBowlsKeep(s, s', t);
    SameFreeKeep(s, s', t);
  }

  lemma LockStepCalm(pc: Pc)
    requires LockStep(pc).Some?
    ensures var (r, b, pc') := LockStep(pc).value;
            && Calm(pc, pc')
            && HoldsRound(pc') == (match r case Keep => HoldsRound(pc) case Grab => true case Drop => false)
            && HoldsBowlLock(pc') == (match b case Keep => HoldsBowlLock(pc) case Grab => true case Drop => false)
            && (r.Drop? ==> HoldsRound(pc)) && (b.Drop? ==> HoldsBowlLock(pc))
  {
  }

  lemma LockKeeps(s: State, t: Tid, s': State)
    requires Inv(s) && t < |s.threads| && StepLock(s, t, s')
    ensures Inv(s')
  {
    assert LockOk(s, t);
    hide RoundOk, FreeOk, BowlsOk, LocksOk, HoldsRound, HoldsBowlLock, LockStep, Calm;
    LockStepCalm(s.threads[t].pc);
    CalmKeeps(s, t, s');
  }

  lemma TestRoundKeeps(s: State, t: Tid, s': State)
    requires Inv(s) && t < |s.threads| && StepTestRound(s, t, s')
    ensures Inv(s')
  {
    assert LockOk(s, t);
    hide RoundOk, FreeOk, BowlsOk, LocksOk;
    LocksKeep(s, s', t);
    RoundKeep(s, s', t);
    SameBowlsKeep(s, s', t);
    SameFreeKeep(s, s', t);
  }

  lemma EnterRoundKeeps(s: State, t: Tid, s': State)
    requires Inv(s) && t < |s.threads| && StepEnterRound(s, t, s')
    ensures Inv(s')
  {
    assert LockOk(s, t);
    hide RoundOk, FreeOk, BowlsOk, LocksOk;
    LocksKeep(s, s', t);
    RoundKeep(s, s', t);
    SameBowlsKeep(s, s', t);
    SameFreeKeep(s, s', t);
  }

  lemma TestBowlKeeps(s: State, t: Tid, s': State)
    requires Inv(s) && t < |s.threads| && StepTestBowl(s, t, s')
    ensures Inv(s')
  {
    assert LockOk(s, t);
    hide RoundOk, FreeOk, BowlsOk, LocksOk;
    LocksKeep(s, s', t);
    RoundKeep(s, s', t);
    SameBowlsKeep(s, s', t);
    SameFreeKeep(s, s', t);
  }

  /** The bowl-search assertion: under lockBowl, a positive count means that the search finds a free bowl. */
  lemma PickNoPanic(s: State, t: Tid, s': State)
    requires LocksOk(s) && FreeOk(s) && t < |s.threads| && !s.panicked && StepPickBowl(s, t, s')
    ensures !s'.panicked
  {
    assert LockOk(s, t);
    FreeExists(s.bowlStates);
  }

  lemma PickFree(s: State, t: Tid, s': State)
    requires LocksOk(s) && FreeOk(s) && t < |s.threads| && StepPickBowl(s, t, s') && !s'.panicked
    ensures FreeOk(s')
  {
    assert LockOk(s, t);
    FreeUpdate(s.bowlStates, FirstFree(s.bowlStates, 1) - 1, Letter(s.threads[t].cat));
    forall u | 0 <= u < |s'.threads| && s'.threads[u].pc.PickBowl? ensures s'.availableBowls > 0 {
      assert s.threads[u].pc.PickBowl?;
    }
  }

  /** A bowl that the monitor sees in use is marked by the simulation. */
  lemma SeenIsMarked(s: State, b: nat)
    requires BowlsOk(s) && b < |s.bowls| && s.bowls[b] != '-'
    ensures s.bowlStates[b] != '-'
  {
    assert Occupied(s, b);
    var t: Tid :| Owns(s, t, b);
    assert BowlOk(s, t);
  }

  /** The chosen bowl was nobody's, so it now has one owner. */
  lemma PickBowls(s: State, t: Tid, s': State)
    requires BowlsOk(s) && t < |s.threads| && StepPickBowl(s, t, s') && !s.panicked && !s'.panicked && Only(s, s', t)
    ensures BowlsOk(s')
  {
    hide Only;
    var x := FirstFree(s.bowlStates, 1);
    if s.bowls[x - 1] != '-' { SeenIsMarked(s, x - 1); }
    forall u | 0 <= u < |s'.threads| ensures BowlOk(s', u) {
      assert BowlOk(s, u);
    }
    forall u, w | 0 <= u < |s'.threads| && 0 <= w < |s'.threads| ensures OneOwner(s', u, w) {
      assert OneOwner(s, u, w) && BowlOk(s, u) && BowlOk(s, w);
    }
    forall b | 0 <= b < |s'.bowlStates| ensures Occupied(s', b) {
      if b == x - 1 { assert Owns(s', t, b); } else { OccupiedKeep(s, s', t, b); }
    }
  }

  lemma PickBowlKeeps(s: State, t: Tid, s': State)
    requires Inv(s) && t < |s.threads| && StepPickBowl(s, t, s')
    ensures Inv(s')
  {
    assert LockOk(s, t);
    hide RoundOk, FreeOk, BowlsOk, LocksOk;
    PickNoPanic(s, t, s');
    LocksKeep(s, s', t);
    RoundKeep(s, s', t);
    PickBowls(s, t, s');
    PickFree(s, t, s');
  }

  /** Within lockBowl the count may be one ahead of the bowls, or has just caught up. */
  lemma CountFree(s: State, t: Tid, s': State)
    requires LocksOk(s) && FreeOk(s) && t < |s.threads| && (StepCountDown(s, t, s') || StepCountUp(s, t, s'))
    ensures FreeOk(s')
  {
    assert LockOk(s, t);
    forall u | 0 <= u < |s'.threads| && s'.threads[u].pc.PickBowl? ensures s'.availableBowls > 0 {
      Exclusive(s, t, u);
    }
  }

  lemma CountKeeps(s: State, t: Tid, s': State)
    requires Inv(s) && t < |s.threads| && (StepCountDown(s, t, s') || StepCountUp(s, t, s'))
    ensures Inv(s')
  {
    assert LockOk(s, t);
    hide RoundOk, FreeOk, BowlsOk, LocksOk;
    LocksKeep(s, s', t);
    RoundKeep(s, s', t);
    SameBowlsKeep(s, s', t);
    CountFree(s, t, s');
  }

  lemma FreeBowlFree(s: State, t: Tid, s': State)
    requires LocksOk(s) && FreeOk(s) && BowlsOk(s) && t < |s.threads| && StepFreeBowl(s, t, s')
    ensures FreeOk(s')
  {
    assert LockOk(s, t) && BowlOk(s, t);
    FreeUpdate(s.bowlStates, s.threads[t].pc.x - 1, '-');
    forall u | 0 <= u < |s'.threads| && s'.threads[u].pc.PickBowl? ensures s'.availableBowls > 0 {
      Exclusive(s, t, u);
    }
  }

  /** Changing the record of a thread's own bowl affects nobody else's. */
  lemma OwnBowlKeeps(s: State, t: Tid, s': State, x: nat)
    requires BowlsOk(s) && Only(s, s', t) && Bowl(s.threads[t].pc) == Some(x)
    requires |s'.bowlStates| == |s.bowlStates| && |s'.bowls| == |s.bowls| && BowlOk(s', t)
    requires forall b :: 0 <= b < |s.bowls| && b != x - 1 ==>
               s'.bowlStates[b] == s.bowlStates[b] && s'.bowls[b] == s.bowls[b]
    requires Bowl(s'.threads[t].pc) == Some(x)
          || (Bowl(s'.threads[t].pc) == None && 0 < x <= |s.bowls| && s'.bowlStates[x - 1] == s'.bowls[x - 1] == '-')
    ensures BowlsOk(s')
  {
    assert BowlOk(s, t);
    forall u | 0 <= u < |s'.threads| ensures BowlOk(s', u) {
      assert BowlOk(s, u) && OneOwner(s, t, u);
    }
    forall u, w | 0 <= u < |s'.threads| && 0 <= w < |s'.threads| ensures OneOwner(s', u, w) {
      assert OneOwner(s, u, w) && OneOwner(s, t, w) && OneOwner(s, u, t);
    }
    forall b | 0 <= b < |s'.bowlStates| ensures Occupied(s', b) {
      if b != x - 1 {
        OccupiedKeep(s, s', t, b);
      } else if Bowl(s'.threads[t].pc) == Some(x) {
        assert Owns(s', t, b);
      }
    }
  }

  lemma FreeBowlKeeps(s: State, t: Tid, s': State)
    requires Inv(s) && t < |s.threads| && StepFreeBowl(s, t, s')
    ensures Inv(s')
  {
    assert LockOk(s, t);
    assert BowlOk(s, t);
    hide RoundOk, FreeOk, BowlsOk, LocksOk;
    LocksKeep(s, s', t);
    RoundKeep(s, s', t);
    FreeBowlFree(s, t, s');
    BowlsSize(s);
    OwnBowlKeeps(s, t, s', s.threads[t].pc.x);
  }

  lemma BowlsSize(s: State)
    requires BowlsOk(s)
    ensures |s.bowlStates| == |s.bowls|
  {
  }

  /**
   * The monitor admits a thread: its bowl is free, and nobody of the other species eats, because none
   * is in the round.
   */
  lemma EatNoPanic(s: State, t: Tid, s': State)
    requires RoundOk(s) && BowlsOk(s) && t < |s.threads| && !s.panicked
          && (StepEatStart(s, t, s') || StepEatEnd(s, t, s'))
    ensures !s'.panicked
  {
    var th := s.threads[t];
    assert BowlOk(s, t);
    NumberPositive(s.threads, t, th.cat, th.pc.Eating?);
    EatingInRound(s.threads, !th.cat);
    assert Get(s.eating, th.cat) == Number(s.threads, th.cat, true)
        && Get(s.eating, !th.cat) == Number(s.threads, !th.cat, true);
    assert Get(s.inRound, th.cat) == Number(s.threads, th.cat, false)
        && Get(s.inRound, !th.cat) == Number(s.threads, !th.cat, false);
  }

  lemma EatStartKeeps(s: State, t: Tid, s': State)
    requires Inv(s) && t < |s.threads| && StepEatStart(s, t, s')
    ensures Inv(s')
  {
    assert LockOk(s, t) && BowlOk(s, t);
    hide RoundOk, FreeOk, BowlsOk, LocksOk;
    EatNoPanic(s, t, s');
    LocksKeep(s, s', t);
    RoundKeep(s, s', t);
    SameFreeKeep(s, s', t);
    BowlsSize(s);
    OwnBowlKeeps(s, t, s', s.threads[t].pc.x);
  }

  lemma EatEndKeeps(s: State, t: Tid, s': State)
    requires Inv(s) && t < |s.threads| && StepEatEnd(s, t, s')
    ensures Inv(s')
  {
    assert LockOk(s, t) && BowlOk(s, t);
    hide RoundOk, FreeOk, BowlsOk, LocksOk;
    EatNoPanic(s, t, s');
    LocksKeep(s, s', t);
    RoundKeep(s, s', t);
    SameFreeKeep(s, s', t);
    BowlsSize(s);
    OwnBowlKeeps(s, t, s', s.threads[t].pc.x);
  }

  lemma TallyKeeps(s: State, t: Tid, s': State, p: Params)
    requires Inv(s) && t < |s.threads| && StepTally(s, t, s', p)
    ensures Inv(s')
  {
    assert LockOk(s, t);
    hide RoundOk, FreeOk, BowlsOk, LocksOk;
    LocksKeep(s, s', t);
    RoundKeep(s, s', t);
    SameBowlsKeep(s, s', t);
    SameFreeKeep(s, s', t);
  }

  lemma SwitchKeeps(s: State, t: Tid, s': State, p: Params)
    requires Inv(s) && t < |s.threads| && StepSwitch(s, t, s', p)
    ensures Inv(s')
  {
    assert LockOk(s, t);
    hide RoundOk, FreeOk, BowlsOk, LocksOk;
    CalmKeeps(s, t, s');
  }

  lemma LeaveRoundKeeps(s: State, t: Tid, s': State, p: Params)
    requires Inv(s) && t < |s.threads| && StepLeaveRound(s, t, s', p)
    ensures Inv(s')
  {
    assert LockOk(s, t);
    hide RoundOk, FreeOk, BowlsOk, LocksOk;
    CalmKeeps(s, t, s');
  }

  lemma FinalKeeps(s: State, t: Tid, s': State)
    requires Inv(s) && t < |s.threads| && StepFinal(s, t, s')
    ensures Inv(s')
  {
    assert LockOk(s, t);
    hide RoundOk, FreeOk, BowlsOk, LocksOk;
    CalmKeeps(s, t, s');
  }

  lemma StepKeeps(s: State, t: Tid, s': State, p: Params)
    requires Inv(s) && Step(s, t, s', p)
    ensures Inv(s')
  {
    hide Inv, StepLock, StepTestRound, StepEnterRound, StepTestBowl, StepPickBowl, StepCountDown, StepEatStart,
         StepEatEnd, StepCountUp, StepFreeBowl, StepTally, StepSwitch, StepLeaveRound, StepFinal;
    if StepLock(s, t, s') { LockKeeps(s, t, s'); }
    else if StepTestRound(s, t, s') { TestRoundKeeps(s, t, s'); }
    else if StepEnterRound(s, t, s') { EnterRoundKeeps(s, t, s'); }
    else if StepTestBowl(s, t, s') { TestBowlKeeps(s, t, s'); }
    else if StepPickBowl(s, t, s') { PickBowlKeeps(s, t, s'); }
    else if StepCountDown(s, t, s') || StepCountUp(s, t, s') { CountKeeps(s, t, s'); }
    else if StepEatStart(s, t, s') { EatStartKeeps(s, t, s'); }
    else if StepEatEnd(s, t, s') { EatEndKeeps(s, t, s'); }
    else if StepFreeBowl(s, t, s') { FreeBowlKeeps(s, t, s'); }
    else if StepTally(s, t, s', p) { TallyKeeps(s, t, s', p); }
    else if StepSwitch(s, t, s', p) { SwitchKeeps(s, t, s', p); }
    else if StepLeaveRound(s, t, s', p) { LeaveRoundKeeps(s, t, s', p); }
    else { FinalKeeps(s, t, s'); }
  }

  // ----- every run -----

  /** As catmouse sets things up; whose turn is first depends on the times. */
  ghost predicate Init(s: State, p: Params) {
    && s.lockRound == None && s.lockBowl == None && s.inRound == Pair(0, 0) && s.eating == Pair(0, 0) && !s.panicked
    && p.numBowls > 0 && p.numLoops > 0 && s.availableBowls == p.numBowls == |s.bowlStates| == |s.bowls|
    && (forall b :: 0 <= b < |s.bowls| ==> s.bowls[b] == '-' && s.bowlStates[b] == '-')
    && (forall t :: 0 <= t < |s.threads| ==> s.threads[t].turns == 0 && s.threads[t].pc == Sleep)
  }

  lemma {:induction false} NobodyCounts(ths: seq<Thread>, cat: bool, eating: bool)
    requires forall t :: 0 <= t < |ths| ==> ths[t].pc == Sleep
    ensures Number(ths, cat, eating) == 0
  {
    if ths != [] { NobodyCounts(ths[..|ths| - 1], cat, eating); }
  }

  lemma {:induction false} AllFree(states: seq<char>)
    requires forall b :: 0 <= b < |states| ==> states[b] == '-'
    ensures Free(states) == |states|
  {
    if states != [] { AllFree(states[..|states| - 1]); }
  }

  lemma InitInv(s: State, p: Params)
    requires Init(s, p)
    ensures Inv(s)
  {
    AllFree(s.bowlStates);
    forall cat
      ensures Get(s.inRound, cat) == Number(s.threads, cat, false)
      ensures Get(s.eating, cat) == Number(s.threads, cat, true)
    {
      NobodyCounts(s.threads, cat, false);
      NobodyCounts(s.threads, cat, true);
    }
  }

  ghost predicate IsRun(states: seq<State>, movers: seq<Tid>, p: Params) {
    && |states| == |movers| + 1 && Init(states[0], p)
    && forall i :: 0 <= i < |movers| ==> Step(states[i], movers[i], states[i + 1], p)
  }

  lemma {:induction false} RunInv(states: seq<State>, movers: seq<Tid>, p: Params, n: nat)
    requires IsRun(states, movers, p) && n <= |movers|
    ensures Inv(states[n])
  {
    hide Inv, Init, Step;
    if n == 0 {
      InitInv(states[0], p);
    } else {
      RunInv(states, movers, p, n - 1);
      StepKeeps(states[n - 1], movers[n - 1], states[n], p);
    }
  }

  /**
   * In every interleaving, for any number of cats, mice, bowls and turns: neither the monitor
   * nor the bowl search ever panics; cats and mice are never in the round together, and so
   * never eat together; when lockBowl is free, the count of available bowls is right; and
   * every occupied bowl has exactly one owner, whose letter it carries.
   */
  lemma RunSafe(states: seq<State>, movers: seq<Tid>, p: Params, n: nat)
    requires IsRun(states, movers, p) && n <= |movers|
    ensures var s := states[n];
            && !s.panicked
            && (s.inRound.cats == 0 || s.inRound.mice == 0) && (s.eating.cats == 0 || s.eating.mice == 0)
            && (s.lockBowl == None ==> s.availableBowls == Free(s.bowlStates))
            && |s.bowlStates| == |s.bowls|
            && (forall b, t, u :: Owns(s, t, b) && Owns(s, u, b) ==> t == u)
            && (forall b :: 0 <= b < |s.bowlStates| && s.bowlStates[b] != '-' ==>
                  exists t: Tid :: Owns(s, t, b) && s.bowlStates[b] == if s.threads[t].cat then 'c' else 'm')
  {
    hide Init, Step;
    var s := states[n];
    RunInv(states, movers, p, n);
    EatingInRound(s.threads, true);
    EatingInRound(s.threads, false);
    assert Get(s.eating, true) == Number(s.threads, true, true)
        && Get(s.eating, false) == Number(s.threads, false, true);
    assert Get(s.inRound, true) == Number(s.threads, true, false)
        && Get(s.inRound, false) == Number(s.threads, false, false);
    forall b, t, u | Owns(s, t, b) && Owns(s, u, b) ensures t == u { assert OneOwner(s, t, u); }
    forall b | 0 <= b < |s.bowlStates| && s.bowlStates[b] != '-'
      ensures exists t: Tid :: Owns(s, t, b) && s.bowlStates[b] == if s.threads[t].cat then 'c' else 'm'
    {
      assert Occupied(s, b);
      var t: Tid :| Owns(s, t, b);
      assert BowlOk(s, t);
    }
  }

  // ----- meals and turns -----

  /** Has eaten in this turn of its loop. */
  predicate Fed(pc: Pc) {
    pc.WantRoundAgain? || pc.WantBowlAgain? || pc.CountUp? || pc.FreeBowl? || pc.Signal? || pc.Tally? || pc.Switch?
    || pc.LeaveRound?
  }

  predicate OutOfLoop(pc: Pc) { pc.FinalTurn? || pc.FinalDone? || pc.Finished? }

  /** A thread begins, or ends, a meal: it enters, or leaves, the state in which the monitor counts it as eating. */
  predicate Begins(s: State, s': State, t: Tid) {
    t < |s.threads| == |s'.threads| && !s.threads[t].pc.Eating? && s'.threads[t].pc.Eating?
  }

  predicate Ends(s: State, s': State, t: Tid) {
    t < |s.threads| == |s'.threads| && s.threads[t].pc.Eating? && !s'.threads[t].pc.Eating?
  }

  function Begun(states: seq<State>, n: nat, t: Tid): nat
    requires n < |states|
  {
    if n == 0 then 0 else Begun(states, n - 1, t) + Flag(Begins(states[n - 1], states[n], t))
  }

  function Ended(states: seq<State>, n: nat, t: Tid): nat
    requires n < |states|
  {
    if n == 0 then 0 else Ended(states, n - 1, t) + Flag(Ends(states[n - 1], states[n], t))
  }

  predicate LoopOk(th: Thread, p: Params) {
    if OutOfLoop(th.pc) then th.turns == p.numLoops else th.turns < p.numLoops
  }

  /** The course of a thread: what may follow where it is; a thread that panics stays where it is. */
  predicate Follows(th: Thread, th': Thread, p: Params) {
    th' == th || (th'.cat == th.cat && (th'.turns == th.turns || th.pc.LeaveRound?) &&
    match th.pc
    case WantRound => th'.pc.TestRound?
    case TestRound => th'.pc.WantRound? || th'.pc.EnterRound?
    case Sleep => th'.pc.WantRound?
    case EnterRound => th'.pc.LeaveEntry?
    case LeaveEntry => th'.pc.WantBowl?
    case WantBowl => th'.pc.TestBowl?
    case TestBowl => th'.pc.WantBowl? || th'.pc.PickBowl?
    case PickBowl => th'.pc.CountDown?
    case CountDown(x) => th'.pc == LeaveBowl(x)
    case LeaveBowl(x) => th'.pc == EatStart(x)
    case EatStart(x) => th'.pc == Eating(x)
    case Eating(x) => th'.pc == WantRoundAgain(x)
    case WantRoundAgain(x) => th'.pc == WantBowlAgain(x)
    case WantBowlAgain(x) => th'.pc == CountUp(x)
    case CountUp(x) => th'.pc == FreeBowl(x)
    case FreeBowl(x) => th'.pc.Signal?
    case Signal => th'.pc.Tally?
    case Tally => th'.pc.Switch?
    case Switch => th'.pc.LeaveRound?
    case LeaveRound => th'.turns == th.turns + 1 && if th'.turns < p.numLoops then th'.pc.Sleep? else th'.pc.FinalTurn?
    case FinalTurn => th'.pc.FinalDone?
    case FinalDone => th'.pc.Finished?
    case Finished => false)
  }

  ghost predicate OnlyMover(s: State, t: Tid, s': State, p: Params) {
    && t < |s.threads| == |s'.threads| && Follows(s.threads[t], s'.threads[t], p)
    && forall u :: 0 <= u < |s.threads| && u != t ==> s'.threads[u] == s.threads[u]
  }

  lemma FollowsEarly(s: State, t: Tid, s': State, p: Params)
    requires t < |s.threads|
    requires StepLock(s, t, s') || StepTestRound(s, t, s') || StepEnterRound(s, t, s') || StepTestBowl(s, t, s')
    ensures OnlyMover(s, t, s', p)
  {
    hide LockChange;
  }

  lemma FollowsMiddle(s: State, t: Tid, s': State, p: Params)
    requires t < |s.threads|
    requires StepPickBowl(s, t, s') || StepCountDown(s, t, s') || StepEatStart(s, t, s') || StepEatEnd(s, t, s')
             || StepCountUp(s, t, s') || StepFreeBowl(s, t, s')
    ensures OnlyMover(s, t, s', p)
  {
    hide FirstFree;
  }

  lemma FollowsLate(s: State, t: Tid, s': State, p: Params)
    requires t < |s.threads|
    requires StepTally(s, t, s', p) || StepSwitch(s, t, s', p) || StepLeaveRound(s, t, s', p) || StepFinal(s, t, s')
    ensures OnlyMover(s, t, s', p)
  {
  }

  lemma OthersStay(s: State, t: Tid, s': State, p: Params)
    requires Step(s, t, s', p)
    ensures OnlyMover(s, t, s', p)
  {
    hide StepLock, StepTestRound, StepEnterRound, StepTestBowl, StepPickBowl, StepCountDown, StepEatStart, StepEatEnd,
         StepCountUp, StepFreeBowl, StepTally, StepSwitch, StepLeaveRound, StepFinal, OnlyMover;
    if StepLock(s, t, s') || StepTestRound(s, t, s') || StepEnterRound(s, t, s') || StepTestBowl(s, t, s') {
      FollowsEarly(s, t, s', p);
    } else if StepTally(s, t, s', p) || StepSwitch(s, t, s', p) || StepLeaveRound(s, t, s', p) || StepFinal(s, t, s') {
      FollowsLate(s, t, s', p);
    } else {
      FollowsMiddle(s, t, s', p);
    }
  }

  lemma OwnMeals(s: State, t: Tid, s': State, p: Params)
    requires OnlyMover(s, t, s', p) && LoopOk(s.threads[t], p)
    ensures |s'.threads| == |s.threads| && LoopOk(s'.threads[t], p)
    ensures s'.threads[t].turns + Flag(Fed(s'.threads[t].pc))
            == s.threads[t].turns + Flag(Fed(s.threads[t].pc)) + Flag(Ends(s, s', t))
    ensures Flag(s'.threads[t].pc.Eating?)
            == Flag(s.threads[t].pc.Eating?) + Flag(Begins(s, s', t)) - Flag(Ends(s, s', t))
  {
  }

  lemma MealStep(s: State, u: Tid, s': State, p: Params, t: Tid)
    requires Step(s, u, s', p) && t < |s.threads| && LoopOk(s.threads[t], p)
    ensures t < |s'.threads| && LoopOk(s'.threads[t], p)
    ensures s'.threads[t].turns + Flag(Fed(s'.threads[t].pc))
            == s.threads[t].turns + Flag(Fed(s.threads[t].pc)) + Flag(Ends(s, s', t))
    ensures Flag(s'.threads[t].pc.Eating?)
            == Flag(s.threads[t].pc.Eating?) + Flag(Begins(s, s', t)) - Flag(Ends(s, s', t))
  {
    OthersStay(s, u, s', p);
    hide Step, LoopOk, Fed, Follows;
    if t == u { OwnMeals(s, u, s', p); }
  }

  /**
   * In every interleaving, a thread has ended as many meals as it has finished turns, and one more
   * once it has eaten in the present turn; a finished cat or mouse has eaten exactly numLoops times.
   */
  lemma {:induction false} RunMeals(states: seq<State>, movers: seq<Tid>, p: Params, n: nat, t: Tid)
    requires IsRun(states, movers, p) && n <= |movers| && t < |states[0].threads|
    ensures t < |states[n].threads| && LoopOk(states[n].threads[t], p)
    ensures Ended(states, n, t) == states[n].threads[t].turns + Flag(Fed(states[n].threads[t].pc))
    ensures Begun(states, n, t) == Ended(states, n, t) + Flag(states[n].threads[t].pc.Eating?)
    ensures states[n].threads[t].pc.Finished? ==> Begun(states, n, t) == Ended(states, n, t) == p.numLoops
  {
    hide Step;
    if n > 0 {
      RunMeals(states, movers, p, n - 1, t);
      hide Init, LoopOk, Fed, Begins, Ends;
      MealStep(states[n - 1], movers[n - 1], states[n], p, t);
    }
    Done(states[n].threads[t], p);
  }

  lemma Done(th: Thread, p: Params)
    ensures LoopOk(th, p) && th.pc.Finished? ==> !Fed(th.pc) && th.turns == p.numLoops
  {
  }

  /** The time is up for the species of thread t, which has just eaten. */
  predicate TimeUp(s: State, t: Tid, p: Params) {
    t < |s.threads| && s.threads[t].pc.Switch? && s.timeTaken >= p.allowedTime && !s.done
  }

  /**
   * In every interleaving: a thread enters the round exactly when it is its species' turn and
   * the other species is out, and otherwise waits; the turn passes to the other species when
   * the time is up, or when a thread has had all its turns; and the time runs by each meal, from
   * zero after the turn has passed.
   */
  lemma RunTurns(states: seq<State>, movers: seq<Tid>, p: Params, n: nat)
    requires IsRun(states, movers, p) && n < |movers|
    ensures var s, t, s' := states[n], movers[n], states[n + 1];
            && t < |s.threads| == |s'.threads|
            && var cat, pc := s.threads[t].cat, s.threads[t].pc;
               && (pc.TestRound? ==>
                     s'.threads[t].pc == if s.catsEat == cat && Get(s.inRound, !cat) == 0 then EnterRound
                                         else WantRound)
               && s'.catsEat == (if TimeUp(s, t, p) || pc.FinalTurn? then !cat else s.catsEat)
               && s'.timeTaken == (if TimeUp(s, t, p) then 0
                                   else if pc.Tally? then s.timeTaken + (if cat then p.catTime else p.mouseTime)
                                   else s.timeTaken)
               && (s'.done <==> s.done || pc.FinalDone?)
  {
    hide Init, FirstFree, LockChange;
    assert Step(states[n], movers[n], states[n + 1], p);
    OthersStay(states[n], movers[n], states[n + 1], p);
  }

  // ----- no deadlock -----

  ghost predicate CanStep(s: State, t: Tid, p: Params) {
    exists s': State :: Step(s, t, s', p)
  }

  lemma Enabled(s: State, t: Tid, s': State, p: Params)
    requires Step(s, t, s', p)
    ensures CanStep(s, t, p)
  {
  }

  predicate NeedsRound(pc: Pc) { pc.WantRound? || pc.WantRoundAgain? }

  predicate NeedsBowl(pc: Pc) { pc.WantBowl? || pc.WantBowlAgain? }

  lemma LockStepExists(s: State, t: Tid, p: Params)
    requires t < |s.threads| && !s.panicked && LockStep(s.threads[t].pc).Some?
    requires NeedsRound(s.threads[t].pc) ==> s.lockRound == None
    requires NeedsBowl(s.threads[t].pc) ==> s.lockBowl == None
    ensures CanStep(s, t, p)
  {
    hide CanStep;
    var (r, b, pc) := LockStep(s.threads[t].pc).value;
    var s' := Go(s, t, pc).(
      lockRound := (if r.Keep? then s.lockRound else if r.Grab? then Some(t) else None),
      lockBowl := (if b.Keep? then s.lockBowl else if b.Grab? then Some(t) else None));
    assert StepLock(s, t, s');
    Enabled(s, t, s', p);
  }

  lemma BowlStepExists(s: State, t: Tid, p: Params)
    requires t < |s.threads| && !s.panicked && |s.bowlStates| > 0
    requires s.threads[t].pc.TestBowl? || s.threads[t].pc.PickBowl? || s.threads[t].pc.CountDown?
             || s.threads[t].pc.CountUp?
             || (s.threads[t].pc.FreeBowl? && 0 < s.threads[t].pc.x <= |s.bowlStates|)
    ensures CanStep(s, t, p)
  {
    hide CanStep;
    match s.threads[t].pc
    case TestBowl =>
      var s' := if s.availableBowls == 0 then Go(s, t, WantBowl).(lockBowl := None) else Go(s, t, PickBowl);
      assert StepTestBowl(s, t, s');
      Enabled(s, t, s', p);
    case PickBowl =>
      var x := FirstFree(s.bowlStates, 1);
      var s' := if s.bowlStates[x - 1] != '-' then s.(panicked := true)
                else Go(s, t, CountDown(x)).(bowlStates := s.bowlStates[x - 1 := Letter(s.threads[t].cat)]);
      assert StepPickBowl(s, t, s');
      Enabled(s, t, s', p);
    case CountDown(x) =>
      assert StepCountDown(s, t, Go(s, t, LeaveBowl(x)).(availableBowls := s.availableBowls - 1));
      Enabled(s, t, Go(s, t, LeaveBowl(x)).(availableBowls := s.availableBowls - 1), p);
    case CountUp(x) =>
      assert StepCountUp(s, t, Go(s, t, FreeBowl(x)).(availableBowls := s.availableBowls + 1));
      Enabled(s, t, Go(s, t, FreeBowl(x)).(availableBowls := s.availableBowls + 1), p);
    case FreeBowl(x) =>
      assert StepFreeBowl(s, t, Go(s, t, Signal).(bowlStates := s.bowlStates[x - 1 := '-']));
      Enabled(s, t, Go(s, t, Signal).(bowlStates := s.bowlStates[x - 1 := '-']), p);
  }

  lemma RoundStepExists(s: State, t: Tid, p: Params)
    requires t < |s.threads| && !s.panicked
    requires s.threads[t].pc.TestRound? || s.threads[t].pc.EnterRound? || s.threads[t].pc.Tally?
             || s.threads[t].pc.Switch? || s.threads[t].pc.LeaveRound?
    ensures CanStep(s, t, p)
  {
    hide CanStep;
    var th := s.threads[t];
    match th.pc
    case TestRound =>
      var s' := if Get(s.inRound, !th.cat) != 0 || s.catsEat != th.cat
                then Go(s, t, WantRound).(lockRound := None) else Go(s, t, EnterRound);
      assert StepTestRound(s, t, s');
      Enabled(s, t, s', p);
    case EnterRound =>
      assert StepEnterRound(s, t, Go(s, t, LeaveEntry).(inRound := Add(s.inRound, th.cat, 1)));
      Enabled(s, t, Go(s, t, LeaveEntry).(inRound := Add(s.inRound, th.cat, 1)), p);
    case Tally =>
      var s' := Go(s, t, Switch).(timeTaken := s.timeTaken + (if th.cat then p.catTime else p.mouseTime),
                                  inRound := Add(s.inRound, th.cat, -1));
      assert StepTally(s, t, s', p);
      Enabled(s, t, s', p);
    case Switch =>
      var s' := if s.timeTaken >= p.allowedTime && !s.done
                then Go(s, t, LeaveRound).(catsEat := !th.cat, timeTaken := 0) else Go(s, t, LeaveRound);
      assert StepSwitch(s, t, s', p);
      Enabled(s, t, s', p);
    case LeaveRound =>
      var s' := s.(lockRound := None, threads := s.threads[t := Thread(th.cat, th.turns + 1,
                     if th.turns + 1 < p.numLoops then Sleep else FinalTurn)]);
      assert StepLeaveRound(s, t, s', p);
      Enabled(s, t, s', p);
  }

  lemma EatStepExists(s: State, t: Tid, p: Params)
    requires t < |s.threads| && !s.panicked
    requires s.threads[t].pc.EatStart? || s.threads[t].pc.Eating? || s.threads[t].pc.FinalTurn?
             || s.threads[t].pc.FinalDone?
    ensures CanStep(s, t, p)
  {
    hide CanStep;
    var th := s.threads[t];
    match th.pc
    case EatStart(x) =>
      var s' := if x == 0 || x > |s.bowls| || s.bowls[x - 1] != '-' || Get(s.eating, !th.cat) != 0
                then s.(panicked := true)
                else Go(s, t, Eating(x)).(eating := Add(s.eating, th.cat, 1),
                                          bowls := s.bowls[x - 1 := Letter(th.cat)]);
      assert StepEatStart(s, t, s');
      Enabled(s, t, s', p);
    case Eating(x) =>
      var s' := if x == 0 || x > |s.bowls| || s.bowls[x - 1] != Letter(th.cat) || Get(s.eating, th.cat) <= 0
                then s.(panicked := true)
                else Go(s, t, WantRoundAgain(x)).(eating := Add(s.eating, th.cat, -1), bowls := s.bowls[x - 1 := '-']);
      assert StepEatEnd(s, t, s');
      Enabled(s, t, s', p);
    case FinalTurn =>
      assert StepFinal(s, t, Go(s, t, FinalDone).(catsEat := !th.cat));
      Enabled(s, t, Go(s, t, FinalDone).(catsEat := !th.cat), p);
    case FinalDone =>
      assert StepFinal(s, t, Go(s, t, Finished).(done := true));
      Enabled(s, t, Go(s, t, Finished).(done := true), p);
  }

  /** A thread that is not finished can step, unless a lock it wants is taken. */
  lemma StepExists(s: State, t: Tid, p: Params)
    requires Inv(s) && t < |s.threads| && !s.threads[t].pc.Finished? && |s.bowlStates| > 0
    requires NeedsRound(s.threads[t].pc) ==> s.lockRound == None
    requires NeedsBowl(s.threads[t].pc) ==> s.lockBowl == None
    ensures CanStep(s, t, p)
  {
    assert !s.panicked && BowlOk(s, t);
    hide CanStep, Inv;
    var pc := s.threads[t].pc;
    if LockStep(pc).Some? {
      LockStepExists(s, t, p);
    } else if pc.TestBowl? || pc.PickBowl? || pc.CountDown? || pc.CountUp? || pc.FreeBowl? {
      BowlStepExists(s, t, p);
    } else if pc.EatStart? || pc.Eating? || pc.FinalTurn? || pc.FinalDone? {
      EatStepExists(s, t, p);
    } else {
      RoundStepExists(s, t, p);
    }
  }

  /**
   * In every interleaving, while any thread is not finished, some thread can step: whoever holds
   * lockBowl can, and otherwise whoever holds lockRound.
   */
  lemma RunNoDeadlock(states: seq<State>, movers: seq<Tid>, p: Params, n: nat, t: Tid)
    requires IsRun(states, movers, p) && n <= |movers| && t < |states[n].threads| && !states[n].threads[t].pc.Finished?
    ensures exists u: Tid :: u < |states[n].threads| && CanStep(states[n], u, p)
  {
    RunInv(states, movers, p, n);
    RunSafe(states, movers, p, n);
    var s := states[n];
    assert |s.bowlStates| > 0 by { SomeBowls(states, movers, p, n); }
    var u := if s.lockBowl.Some? then s.lockBowl.value else if s.lockRound.Some? then s.lockRound.value else t;
    assert u < |s.threads| && LockOk(s, u);
    hide CanStep, Inv, IsRun;
    StepExists(s, u, p);
  }

  lemma {:induction false} SomeBowls(states: seq<State>, movers: seq<Tid>, p: Params, n: nat)
    requires IsRun(states, movers, p) && n <= |movers|
    ensures |states[n].bowlStates| == p.numBowls > 0
  {
    if n > 0 {
      SomeBowls(states, movers, p, n - 1);
      hide Init, FirstFree, LockChange;
      BowlsStay(states[n - 1], movers[n - 1], states[n], p);
    }
  }

  lemma BowlsStay(s: State, t: Tid, s': State, p: Params)
    requires Step(s, t, s', p)
    ensures |s'.bowlStates| == |s.bowlStates|
  {
    hide FirstFree, LockChange;
  }
}
