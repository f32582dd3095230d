/**
 * Where the threads of kern/thread/thread.c are: a step system over any number of CPUs,
 * threads and wait channels, for fork, context switch, sleep, wakeup, exit, reaping and
 * migration. Each step is one critical section; between steps every other CPU may step.
 */
module Scheduler {
  import opened Common
  import opened Fifo

  datatype Holder = Waker(thread: Tid) | Migrator(cpu: nat)

  datatype Place = OnCpu(cpu: nat) | RunQueue(cpu: nat) | Channel(id: nat) | Zombies(cpu: nat) | Transit(holder: Holder)

  /**
   * A CPU runs its thread; or, in thread_switch, is choosing the next one under its run-queue
   * lock; or idles with the lock released; or has landed on the new thread's stack, still
   * holding the lock; or, lock released, is in the tail of thread_switch or thread_startup
   * that cleans up zombies. c_isidle is set while choosing and idling.
   */
  datatype Phase = Running | Choosing | Idle | Landed | Tail

  datatype State = State(lists: map<Place, seq<Tid>>, tcpu: map<Tid, nat>, phase: seq<Phase>, cur: seq<Tid>)

  function At(lists: map<Place, seq<Tid>>, p: Place): seq<Tid> {
    if p in lists then lists[p] else []
  }

  predicate Busy(ph: Phase) { ph.Running? || ph.Landed? || ph.Tail? }

  predicate Locked(ph: Phase) { ph.Choosing? || ph.Landed? }

  /** An interrupt can be taken, or the thread itself is executing. */
  predicate Open(ph: Phase) { ph.Running? || ph.Idle? }

  function Cut(l: seq<Tid>, i: nat): seq<Tid>
    requires i < |l|
  {
    l[..i] + l[i + 1..]
  }

  /** Takes the i-th thread off the list at p and appends it to the list at q. */
  function Move(lists: map<Place, seq<Tid>>, p: Place, i: nat, q: Place): map<Place, seq<Tid>>
    requires p in lists && i < |lists[p]| && p != q
  {
    lists[p := Cut(lists[p], i)][q := At(lists, q) + [lists[p][i]]]
  }

  predicate Has(s: State, p: Place) { At(s.lists, p) != [] }

  // ----- steps -----

  /** thread_fork on CPU c: a new thread on the forker's CPU, about to be made runnable. */
  predicate StepFork(s: State, s': State, c: nat, t: Tid) {
    && c < |s.phase| == |s.cur| && s.phase[c].Running? && t !in s.tcpu && s.cur[c] in s.tcpu
    && var q := Transit(Waker(s.cur[c]));
       s' == s.(lists := s.lists[q := At(s.lists, q) + [t]], tcpu := s.tcpu[t := s.tcpu[s.cur[c]]])
  }

  /** thread_yield with somebody waiting: the thread goes to the back of its own queue. */
  predicate StepYield(s: State, s': State, c: nat) {
    && c < |s.phase| == |s.cur| && s.phase[c].Running? && s.cur[c] in s.tcpu
    && Has(s, OnCpu(c)) && Has(s, RunQueue(s.tcpu[s.cur[c]])) && !Has(s, Transit(Migrator(c)))
    && s' == s.(lists := Move(s.lists, OnCpu(c), 0, RunQueue(s.tcpu[s.cur[c]])), phase := s.phase[c := Choosing])
  }

  predicate StepSleep(s: State, s': State, c: nat, w: nat) {
    && c < |s.phase| == |s.cur| && s.phase[c].Running? && Has(s, OnCpu(c))
    && !Has(s, Transit(Migrator(c))) && !Has(s, Transit(Waker(s.cur[c])))
    && s' == s.(lists := Move(s.lists, OnCpu(c), 0, Channel(w)), phase := s.phase[c := Choosing])
  }

  predicate StepExit(s: State, s': State, c: nat) {
    && c < |s.phase| == |s.cur| && s.phase[c].Running? && Has(s, OnCpu(c))
    && !Has(s, Transit(Migrator(c))) && !Has(s, Transit(Waker(s.cur[c])))
    && s' == s.(lists := Move(s.lists, OnCpu(c), 0, Zombies(c)), phase := s.phase[c := Choosing])
  }

  /** The next thread comes off the head of the queue and becomes curthread. */
  predicate StepPick(s: State, s': State, c: nat) {
    && c < |s.phase| == |s.cur| && s.phase[c].Choosing? && Has(s, RunQueue(c))
    && s' == s.(lists := Move(s.lists, RunQueue(c), 0, OnCpu(c)), phase := s.phase[c := Landed],
                cur := s.cur[c := s.lists[RunQueue(c)][0]])
  }

  predicate StepIdle(s: State, s': State, c: nat) {
    && c < |s.phase| && s.phase[c].Choosing? && !Has(s, RunQueue(c))
    && s' == s.(phase := s.phase[c := Idle])
  }

  /** The idle loop takes the lock again, after any interrupt handler has finished. */
  predicate StepRelock(s: State, s': State, c: nat) {
    && c < |s.phase| == |s.cur| && s.phase[c].Idle?
    && !Has(s, Transit(Migrator(c))) && !Has(s, Transit(Waker(s.cur[c])))
    && s' == s.(phase := s.phase[c := Choosing])
  }

  predicate StepUnlock(s: State, s': State, c: nat) {
    c < |s.phase| && s.phase[c].Landed? && s' == s.(phase := s.phase[c := Tail])
  }

  /** One turn of exorcise: the first zombie of this CPU is destroyed. */
  predicate StepReap(s: State, s': State, c: nat) {
    && c < |s.phase| && s.phase[c].Tail? && Has(s, Zombies(c))
    && s' == s.(lists := s.lists[Zombies(c) := Cut(s.lists[Zombies(c)], 0)], tcpu := s.tcpu - {s.lists[Zombies(c)][0]})
  }

  predicate StepResume(s: State, s': State, c: nat) {
    c < |s.phase| && s.phase[c].Tail? && !Has(s, Zombies(c)) && s' == s.(phase := s.phase[c := Running])
  }

  /** wchan_wakeone or one turn of wchan_wakeall, by a thread or by an interrupt on CPU c. */
  predicate StepWake(s: State, s': State, c: nat, w: nat) {
    && c < |s.phase| == |s.cur| && Open(s.phase[c]) && Has(s, Channel(w))
    && s' == s.(lists := Move(s.lists, Channel(w), 0, Transit(Waker(s.cur[c]))))
  }

  /** thread_make_runnable of the i-th thread that the thread on CPU c has in hand. */
  predicate StepMakeRunnable(s: State, s': State, c: nat, i: nat) {
    && c < |s.phase| == |s.cur| && Open(s.phase[c])
    && var p := Transit(Waker(s.cur[c]));
       && p in s.lists && i < |s.lists[p]| && s.lists[p][i] in s.tcpu
       && var d := s.tcpu[s.lists[p][i]];
          d < |s.phase| && !Locked(s.phase[d]) && s' == s.(lists := Move(s.lists, p, i, RunQueue(d)))
  }

  /** The migrator on CPU c takes the last thread of its own queue. */
  predicate StepTake(s: State, s': State, c: nat) {
    && c < |s.phase| && Open(s.phase[c]) && Has(s, RunQueue(c))
    && s' == s.(lists := Move(s.lists, RunQueue(c), |s.lists[RunQueue(c)]| - 1, Transit(Migrator(c))))
  }

  /** The migrator hands a victim, not the current thread, to CPU d. */
  predicate StepGive(s: State, s': State, c: nat, d: nat, i: nat) {
    && c < |s.phase| == |s.cur| && d < |s.phase| && c != d && Open(s.phase[c]) && !Locked(s.phase[d])
    && var p := Transit(Migrator(c));
       p in s.lists && i < |s.lists[p]| && s.lists[p][i] != s.cur[c]
       && s' == s.(lists := Move(s.lists, p, i, RunQueue(d)), tcpu := s.tcpu[s.lists[p][i] := d])
  }

  predicate StepReturn(s: State, s': State, c: nat, i: nat) {
    && c < |s.phase| && Open(s.phase[c])
    && var p := Transit(Migrator(c));
       p in s.lists && i < |s.lists[p]| && s' == s.(lists := Move(s.lists, p, i, RunQueue(c)))
  }

  datatype Label =
    | Fork(c: nat, t: Tid) | Yield(c: nat) | Sleep(c: nat, w: nat) | Exit(c: nat) | Pick(c: nat) | GoIdle(c: nat)
    | Relock(c: nat) | Unlock(c: nat) | Reap(c: nat) | Resume(c: nat) | Wake(c: nat, w: nat)
    | MakeRunnable(c: nat, i: nat)
    | Take(c: nat) | Give(c: nat, d: nat, i: nat) | Return(c: nat, i: nat)

  predicate Step(s: State, l: Label, s': State) {
    match l
    case Fork(c, t) => StepFork(s, s', c, t)
    case Yield(c) => StepYield(s, s', c)
    case Sleep(c, w) => StepSleep(s, s', c, w)
    case Exit(c) => StepExit(s, s', c)
    case Pick(c) => StepPick(s, s', c)
    case GoIdle(c) => StepIdle(s, s', c)
    case Relock(c) => StepRelock(s, s', c)
    case Unlock(c) => StepUnlock(s, s', c)
    case Reap(c) => StepReap(s, s', c)
    case Resume(c) => StepResume(s, s', c)
    case Wake(c, w) => StepWake(s, s', c, w)
    case MakeRunnable(c, i) => StepMakeRunnable(s, s', c, i)
    case Take(c) => StepTake(s, s', c)
    case Give(c, d, i) => StepGive(s, s', c, d, i)
    case Return(c, i) => StepReturn(s, s', c, i)
  }

  // ----- the invariant, with `loc` naming each live thread's place -----

  predicate Here(lists: map<Place, seq<Tid>>, p: Place, t: Tid) {
    t in At(lists, p)
  }

  ghost predicate Places(lists: map<Place, seq<Tid>>, loc: map<Tid, Place>) {
    && (forall p :: p in lists ==> Distinct(lists[p]))
    && (forall p, t :: Here(lists, p, t) <==> t in loc && loc[t] == p)
  }

  ghost predicate CpuOk(s: State, c: nat)
    requires c < |s.phase| == |s.cur|
  {
    && s.cur[c] in s.tcpu && s.tcpu[s.cur[c]] == c
    && At(s.lists, OnCpu(c)) == (if Busy(s.phase[c]) then [s.cur[c]] else [])
    && (!Open(s.phase[c]) ==> !Has(s, Transit(Migrator(c))))
  }

  ghost predicate ThreadOk(s: State, t: Tid, p: Place)
    requires |s.phase| == |s.cur|
  {
    && t in s.tcpu && s.tcpu[t] < |s.phase|
    && match p
       case OnCpu(c) => c < |s.phase|
       case RunQueue(c) => s.tcpu[t] == c
       case Channel(_) => true
       case Zombies(c) => s.tcpu[t] == c && (Has(s, Transit(Waker(t))) ==> s.phase[c].Idle? && s.cur[c] == t)
       case Transit(Waker(h)) => h in s.tcpu
       case Transit(Migrator(c)) => s.tcpu[t] == c
  }

  ghost predicate Inv(s: State, loc: map<Tid, Place>) {
    && Places(s.lists, loc) && loc.Keys == s.tcpu.Keys && |s.phase| == |s.cur|
    && (forall c :: 0 <= c < |s.phase| ==> CpuOk(s, c))
    && (forall t :: t in loc ==> ThreadOk(s, t, loc[t]))
  }

  lemma CutHas(l: seq<Tid>, i: nat, u: Tid)
    requires i < |l| && Distinct(l)
    ensures u in Cut(l, i) <==> u in l && u != l[i]
  {
  }

  lemma MovePlaces(lists: map<Place, seq<Tid>>, loc: map<Tid, Place>, p: Place, i: nat, q: Place)
    requires Places(lists, loc) && p in lists && i < |lists[p]| && p != q
    ensures Places(Move(lists, p, i, q), loc[lists[p][i] := q])
    ensures lists[p][i] in loc && loc[lists[p][i]] == p
  {
    var t, lists', loc' := lists[p][i], Move(lists, p, i, q), loc[lists[p][i] := q];
    assert Here(lists, p, t) && !Here(lists, q, t);
    assert Distinct(lists[p]) && Distinct(At(lists, q));
    forall r, u ensures Here(lists', r, u) <==> u in loc' && loc'[u] == r {
      CutHas(lists[p], i, u);
      assert Here(lists, r, u) <==> u in loc && loc[u] == r;
    }
  }

  lemma AddPlaces(lists: map<Place, seq<Tid>>, loc: map<Tid, Place>, t: Tid, q: Place)
    requires Places(lists, loc) && t !in loc
    ensures Places(lists[q := At(lists, q) + [t]], loc[t := q])
  {
    var lists', loc' := lists[q := At(lists, q) + [t]], loc[t := q];
    assert !Here(lists, q, t) && Distinct(At(lists, q));
    forall r, u ensures Here(lists', r, u) <==> u in loc' && loc'[u] == r {
      assert Here(lists, r, u) <==> u in loc && loc[u] == r;
    }
  }

  lemma DropPlaces(lists: map<Place, seq<Tid>>, loc: map<Tid, Place>, p: Place, i: nat)
    requires Places(lists, loc) && p in lists && i < |lists[p]|
    ensures Places(lists[p := Cut(lists[p], i)], loc - {lists[p][i]})
    ensures lists[p][i] in loc && loc[lists[p][i]] == p
  {
    var t, lists', loc' := lists[p][i], lists[p := Cut(lists[p], i)], loc - {lists[p][i]};
    assert Here(lists, p, t) && Distinct(lists[p]);
    forall r, u ensures Here(lists', r, u) <==> u in loc' && loc'[u] == r {
      CutHas(lists[p], i, u);
      assert Here(lists, r, u) <==> u in loc && loc[u] == r;
    }
  }

  lemma Listed(lists: map<Place, seq<Tid>>, loc: map<Tid, Place>, t: Tid)
    requires Places(lists, loc) && t in loc
    ensures t in At(lists, loc[t])
  {
    assert Here(lists, loc[t], t);
  }

  lemma CurrentPlace(s: State, loc: map<Tid, Place>, c: nat)
    requires Inv(s, loc) && c < |s.phase|
    ensures CpuOk(s, c) && s.cur[c] in loc && s.tcpu[s.cur[c]] == c && (Busy(s.phase[c]) ==> loc[s.cur[c]] == OnCpu(c))
  {
    assert CpuOk(s, c);
    assert Busy(s.phase[c]) ==> Here(s.lists, OnCpu(c), s.cur[c]);
  }

  // ----- every step keeps the invariant -----

  /** The i-th thread of the list at p is where it should be. */
  lemma Mover(s: State, loc: map<Tid, Place>, p: Place, i: nat)
    requires Inv(s, loc) && p in s.lists && i < |s.lists[p]|
    ensures s.lists[p][i] in loc && loc[s.lists[p][i]] == p && ThreadOk(s, s.lists[p][i], p)
  {
    assert Here(s.lists, p, s.lists[p][i]);
  }

  /** Lists that only CPU c may touch, where they are of that kind. */
  predicate OwnPlace(p: Place, c: nat) {
    match p
    case OnCpu(d) => d == c
    case Transit(Migrator(d)) => d == c
    case _ => true
  }

  /** A step of CPU c that moves one thread from p to q; other CPUs and other threads' t_cpu are left alone. */
  ghost predicate Moves(s: State, s': State, c: nat, p: Place, i: nat, q: Place) {
    && p in s.lists && i < |s.lists[p]| && p != q && s'.lists == Move(s.lists, p, i, q)
    && OwnPlace(p, c) && OwnPlace(q, c)
    && c < |s.phase| == |s.cur| == |s'.phase| == |s'.cur|
    && (forall d :: 0 <= d < |s.phase| && d != c ==> s'.phase[d] == s.phase[d] && s'.cur[d] == s.cur[d])
    && (s.phase[c].Idle? ==> s'.phase[c] == s.phase[c] && s'.cur[c] == s.cur[c])
    && s'.tcpu.Keys == s.tcpu.Keys && (forall u :: u in s.tcpu && u != s.lists[p][i] ==> s'.tcpu[u] == s.tcpu[u])
    && (s'.tcpu == s.tcpu || forall d :: 0 <= d < |s.cur| ==> s.cur[d] != s.lists[p][i])
    && (q.Transit? && q.holder.Waker? ==> q.holder.thread == s.cur[c] && Open(s.phase[c]) && s'.phase[c] == s.phase[c])
  }

  lemma OtherCpu(s: State, s': State, c: nat, p: Place, i: nat, q: Place, d: nat)
    requires Moves(s, s', c, p, i, q) && d < |s.phase| && d != c && CpuOk(s, d)
    ensures CpuOk(s', d)
  {
  }

  lemma OtherThread(s: State, s': State, loc: map<Tid, Place>, c: nat, p: Place, i: nat, q: Place, u: Tid)
    requires Moves(s, s', c, p, i, q) && u != s.lists[p][i] && u in loc && ThreadOk(s, u, loc[u])
    requires s.cur[c] in loc && (Busy(s.phase[c]) ==> loc[s.cur[c]] == OnCpu(c))
          && (s.cur[c] in s.tcpu && s.tcpu[s.cur[c]] == c)
    ensures ThreadOk(s', u, loc[u])
  {
  }

  /** Such a step keeps the invariant if it leaves CPU c and the thread itself in order. */
  lemma MoveKeeps(s: State, s': State, loc: map<Tid, Place>, c: nat, p: Place, i: nat, q: Place)
    returns (loc': map<Tid, Place>)
    requires Inv(s, loc) && Moves(s, s', c, p, i, q) && CpuOk(s', c) && ThreadOk(s', s.lists[p][i], q)
    ensures Inv(s', loc')
  {
    hide Places, CpuOk, ThreadOk, Move, OwnPlace, Busy, Open;
    CurrentPlace(s, loc, c);
    Mover(s, loc, p, i);
    MovePlaces(s.lists, loc, p, i, q);
    var t := s.lists[p][i];
    loc' := loc[t := q];
    forall d | 0 <= d < |s'.phase| ensures CpuOk(s', d) { if d != c { OtherCpu(s, s', c, p, i, q, d); } }
    forall u | u in loc' ensures ThreadOk(s', u, loc'[u]) { if u != t { OtherThread(s, s', loc, c, p, i, q, u); } }
  }

  /** A step that only changes CPU c's phase. */
  lemma PhaseKeeps(s: State, s': State, loc: map<Tid, Place>, c: nat)
    requires Inv(s, loc) && c < |s.phase| == |s'.phase| && s' == s.(phase := s.phase[c := s'.phase[c]])
    requires s.phase[c].Idle? ==> !Has(s, Transit(Waker(s.cur[c])))
    requires CpuOk(s', c)
    ensures Inv(s', loc)
  {
    hide Places;
    forall d | 0 <= d < |s'.phase| ensures CpuOk(s', d) { assert CpuOk(s, d); }
    forall u | u in loc ensures ThreadOk(s', u, loc[u]) { assert ThreadOk(s, u, loc[u]); }
  }

  lemma ForkKeeps(s: State, s': State, loc: map<Tid, Place>, c: nat, t: Tid) returns (loc': map<Tid, Place>)
    requires Inv(s, loc) && StepFork(s, s', c, t)
    ensures Inv(s', loc')
  {
    hide Places;
    CurrentPlace(s, loc, c);
    var q := Transit(Waker(s.cur[c]));
    loc' := loc[t := q];
    AddPlaces(s.lists, loc, t, q);
    forall d | 0 <= d < |s'.phase| ensures CpuOk(s', d) { assert CpuOk(s, d); }
    forall u | u in loc' ensures ThreadOk(s', u, loc'[u]) { if u in loc { assert ThreadOk(s, u, loc[u]); } }
  }

  lemma YieldKeeps(s: State, s': State, loc: map<Tid, Place>, c: nat) returns (loc': map<Tid, Place>)
    requires Inv(s, loc) && StepYield(s, s', c)
    ensures Inv(s', loc')
  {
    CurrentPlace(s, loc, c);
    Mover(s, loc, OnCpu(c), 0);
    hide Inv;
    loc' := MoveKeeps(s, s', loc, c, OnCpu(c), 0, RunQueue(s.tcpu[s.cur[c]]));
  }

  lemma SleepKeeps(s: State, s': State, loc: map<Tid, Place>, c: nat, w: nat) returns (loc': map<Tid, Place>)
    requires Inv(s, loc) && StepSleep(s, s', c, w)
    ensures Inv(s', loc')
  {
    CurrentPlace(s, loc, c);
    Mover(s, loc, OnCpu(c), 0);
    hide Inv;
    loc' := MoveKeeps(s, s', loc, c, OnCpu(c), 0, Channel(w));
  }

  lemma ExitKeeps(s: State, s': State, loc: map<Tid, Place>, c: nat) returns (loc': map<Tid, Place>)
    requires Inv(s, loc) && StepExit(s, s', c)
    ensures Inv(s', loc')
  {
    CurrentPlace(s, loc, c);
    Mover(s, loc, OnCpu(c), 0);
    hide Inv;
    loc' := MoveKeeps(s, s', loc, c, OnCpu(c), 0, Zombies(c));
  }

  /** The thread chosen belongs to the CPU that chose it, and no other CPU is still on its stack. */
  lemma PickKeeps(s: State, s': State, loc: map<Tid, Place>, c: nat) returns (loc': map<Tid, Place>)
    requires Inv(s, loc) && StepPick(s, s', c)
    ensures Inv(s', loc')
    ensures s'.cur[c] in s'.tcpu && s'.tcpu[s'.cur[c]] == c
    ensures forall d :: 0 <= d < |s.cur| && d != c ==> s.cur[d] != s'.cur[c]
  {
    CurrentPlace(s, loc, c);
    Mover(s, loc, RunQueue(c), 0);
    forall d | 0 <= d < |s.cur| && d != c ensures s.cur[d] != s'.cur[c] { assert CpuOk(s, d); }
    hide Inv;
    loc' := MoveKeeps(s, s', loc, c, RunQueue(c), 0, OnCpu(c));
  }

  lemma IdleKeeps(s: State, s': State, loc: map<Tid, Place>, c: nat) returns (loc': map<Tid, Place>)
    requires Inv(s, loc) && StepIdle(s, s', c)
    ensures Inv(s', loc')
  {
    CurrentPlace(s, loc, c);
    PhaseKeeps(s, s', loc, c);
    loc' := loc;
  }

  lemma RelockKeeps(s: State, s': State, loc: map<Tid, Place>, c: nat) returns (loc': map<Tid, Place>)
    requires Inv(s, loc) && StepRelock(s, s', c)
    ensures Inv(s', loc')
  {
    CurrentPlace(s, loc, c);
    PhaseKeeps(s, s', loc, c);
    loc' := loc;
  }

  lemma UnlockKeeps(s: State, s': State, loc: map<Tid, Place>, c: nat) returns (loc': map<Tid, Place>)
    requires Inv(s, loc) && StepUnlock(s, s', c)
    ensures Inv(s', loc')
  {
    CurrentPlace(s, loc, c);
    PhaseKeeps(s, s', loc, c);
    loc' := loc;
  }

  lemma ResumeKeeps(s: State, s': State, loc: map<Tid, Place>, c: nat) returns (loc': map<Tid, Place>)
    requires Inv(s, loc) && StepResume(s, s', c)
    ensures Inv(s', loc')
  {
    CurrentPlace(s, loc, c);
    PhaseKeeps(s, s', loc, c);
    loc' := loc;
  }

  /** A reaped zombie leaves no trace: it is no CPU's current thread and holds nobody in transit. */
  lemma ReapKeeps(s: State, s': State, loc: map<Tid, Place>, c: nat) returns (loc': map<Tid, Place>)
    requires Inv(s, loc) && StepReap(s, s', c)
    ensures Inv(s', loc') && ReapOk(s, c)
  {
    hide Places;
    CurrentPlace(s, loc, c);
    var z := s.lists[Zombies(c)][0];
    Mover(s, loc, Zombies(c), 0);
    loc' := loc - {z};
    DropPlaces(s.lists, loc, Zombies(c), 0);
    forall d | 0 <= d < |s'.phase| ensures CpuOk(s', d) && s.cur[d] != z { assert CpuOk(s, d); }
    forall u | u in loc' ensures ThreadOk(s', u, loc'[u]) {
      assert ThreadOk(s, u, loc[u]);
      Listed(s.lists, loc, u);
    }
  }

  lemma WakeKeeps(s: State, s': State, loc: map<Tid, Place>, c: nat, w: nat) returns (loc': map<Tid, Place>)
    requires Inv(s, loc) && StepWake(s, s', c, w)
    ensures Inv(s', loc')
  {
    CurrentPlace(s, loc, c);
    Mover(s, loc, Channel(w), 0);
    hide Inv;
    loc' := MoveKeeps(s, s', loc, c, Channel(w), 0, Transit(Waker(s.cur[c])));
  }

  lemma MakeRunnableKeeps(s: State, s': State, loc: map<Tid, Place>, c: nat, i: nat) returns (loc': map<Tid, Place>)
    requires Inv(s, loc) && StepMakeRunnable(s, s', c, i)
    ensures Inv(s', loc')
  {
    CurrentPlace(s, loc, c);
    var p := Transit(Waker(s.cur[c]));
    Mover(s, loc, p, i);
    hide Inv;
    loc' := MoveKeeps(s, s', loc, c, p, i, RunQueue(s.tcpu[s.lists[p][i]]));
  }

  lemma TakeKeeps(s: State, s': State, loc: map<Tid, Place>, c: nat) returns (loc': map<Tid, Place>)
    requires Inv(s, loc) && StepTake(s, s', c)
    ensures Inv(s', loc')
  {
    CurrentPlace(s, loc, c);
    var i := |s.lists[RunQueue(c)]| - 1;
    Mover(s, loc, RunQueue(c), i);
    hide Inv;
    loc' := MoveKeeps(s, s', loc, c, RunQueue(c), i, Transit(Migrator(c)));
  }

  /** A thread that migrates is no CPU's current thread, and its t_cpu goes with it. */
  lemma GiveKeeps(s: State, s': State, loc: map<Tid, Place>, c: nat, d: nat, i: nat) returns (loc': map<Tid, Place>)
    requires Inv(s, loc) && StepGive(s, s', c, d, i)
    ensures Inv(s', loc')
    ensures var t := s.lists[Transit(Migrator(c))][i];
            s'.tcpu[t] == d && forall e :: 0 <= e < |s.cur| ==> s.cur[e] != t
  {
    CurrentPlace(s, loc, c);
    var p := Transit(Migrator(c));
    Mover(s, loc, p, i);
    forall e | 0 <= e < |s.cur| ensures s.cur[e] != s.lists[p][i] { assert CpuOk(s, e); }
    assert s.tcpu.Keys == loc.Keys;
    hide Inv;
    loc' := MoveKeeps(s, s', loc, c, p, i, RunQueue(d));
  }

  lemma ReturnKeeps(s: State, s': State, loc: map<Tid, Place>, c: nat, i: nat) returns (loc': map<Tid, Place>)
    requires Inv(s, loc) && StepReturn(s, s', c, i)
    ensures Inv(s', loc')
  {
    CurrentPlace(s, loc, c);
    Mover(s, loc, Transit(Migrator(c)), i);
    hide Inv;
    loc' := MoveKeeps(s, s', loc, c, Transit(Migrator(c)), i, RunQueue(c));
  }

  lemma StepKeeps(s: State, l: Label, s': State, loc: map<Tid, Place>) returns (loc': map<Tid, Place>)
    requires Inv(s, loc) && Step(s, l, s')
    ensures Inv(s', loc')
  {
    hide Inv, StepFork, StepYield, StepSleep, StepExit, StepPick, StepIdle, StepRelock, StepUnlock, StepReap,
         StepResume, StepWake, StepMakeRunnable, StepTake, StepGive, StepReturn;
    match l
    case Fork(c, t) => loc' := ForkKeeps(s, s', loc, c, t);
    case Yield(c) => loc' := YieldKeeps(s, s', loc, c);
    case Sleep(c, w) => loc' := SleepKeeps(s, s', loc, c, w);
    case Exit(c) => loc' := ExitKeeps(s, s', loc, c);
    case Pick(c) => loc' := PickKeeps(s, s', loc, c);
    case GoIdle(c) => loc' := IdleKeeps(s, s', loc, c);
    case Relock(c) => loc' := RelockKeeps(s, s', loc, c);
    case Unlock(c) => loc' := UnlockKeeps(s, s', loc, c);
    case Reap(c) => loc' := ReapKeeps(s, s', loc, c);
    case Resume(c) => loc' := ResumeKeeps(s, s', loc, c);
    case Wake(c, w) => loc' := WakeKeeps(s, s', loc, c, w);
    case MakeRunnable(c, i) => loc' := MakeRunnableKeeps(s, s', loc, c, i);
    case Take(c) => loc' := TakeKeeps(s, s', loc, c);
    case Give(c, d, i) => loc' := GiveKeeps(s, s', loc, c, d, i);
    case Return(c, i) => loc' := ReturnKeeps(s, s', loc, c, i);
  }

  // ----- what holds in every run -----

  /** Some place, and only that one, lists t, and lists it once; threads that are gone are listed nowhere. */
  ghost predicate OnePlace(s: State, t: Tid) {
    && (t in s.tcpu <==> exists p :: Here(s.lists, p, t))
    && (forall p, q :: Here(s.lists, p, t) && Here(s.lists, q, t) ==> p == q)
    && (forall p, i, j :: p in s.lists && 0 <= i < j < |s.lists[p]| ==> !(s.lists[p][i] == t == s.lists[p][j]))
  }

  /** CPU c's own view: its current thread belongs to it, runs on it unless it idles, and its lists are its own. */
  ghost predicate OwnThreads(s: State, c: nat)
    requires c < |s.phase| == |s.cur|
  {
    && s.cur[c] in s.tcpu && s.tcpu[s.cur[c]] == c
    && (Busy(s.phase[c]) <==> At(s.lists, OnCpu(c)) == [s.cur[c]])
    && (!Busy(s.phase[c]) ==> At(s.lists, OnCpu(c)) == [])
    && (forall t :: t in At(s.lists, RunQueue(c)) || t in At(s.lists, Zombies(c)) ==> t in s.tcpu && s.tcpu[t] == c)
    && (forall d :: 0 <= d < |s.cur| && s.cur[d] == s.cur[c] ==> d == c)
  }

  ghost predicate Safe(s: State) {
    && |s.phase| == |s.cur|
    && (forall t :: OnePlace(s, t))
    && (forall c :: 0 <= c < |s.phase| ==> OwnThreads(s, c))
  }

  /**
   * exorcise asserts that the zombie is not its own thread; it is no CPU's current thread, and holds
   * nobody in transit.
   */
  ghost predicate ReapOk(s: State, c: nat) {
    && Has(s, Zombies(c))
    && var z := s.lists[Zombies(c)][0];
       (forall d :: 0 <= d < |s.cur| ==> s.cur[d] != z) && !Has(s, Transit(Waker(z)))
  }

  lemma InvOnePlace(s: State, loc: map<Tid, Place>, t: Tid)
    requires Inv(s, loc)
    ensures OnePlace(s, t)
  {
    if t in loc { assert Here(s.lists, loc[t], t); }
    forall p, i, j | p in s.lists && 0 <= i < j < |s.lists[p]| ensures !(s.lists[p][i] == t == s.lists[p][j]) {
      assert Distinct(s.lists[p]);
    }
  }

  lemma InvOwnThreads(s: State, loc: map<Tid, Place>, c: nat)
    requires Inv(s, loc) && c < |s.phase|
    ensures OwnThreads(s, c)
  {
    assert CpuOk(s, c);
    forall d | 0 <= d < |s.cur| && s.cur[d] == s.cur[c] ensures d == c { assert CpuOk(s, d); }
    forall t | t in At(s.lists, RunQueue(c)) || t in At(s.lists, Zombies(c)) ensures t in s.tcpu && s.tcpu[t] == c {
      assert Here(s.lists, RunQueue(c), t) || Here(s.lists, Zombies(c), t);
      assert ThreadOk(s, t, loc[t]);
    }
  }

  lemma InvSafe(s: State, loc: map<Tid, Place>)
    requires Inv(s, loc)
    ensures Safe(s)
  {
    hide OnePlace, OwnThreads;
    forall t ensures OnePlace(s, t) { InvOnePlace(s, loc, t); }
    forall c | 0 <= c < |s.phase| ensures OwnThreads(s, c) { InvOwnThreads(s, loc, c); }
  }

  /** After boot every CPU runs a thread of its own and nothing else exists. */
  ghost predicate Init(s: State) {
    && |s.phase| == |s.cur|
    && s.tcpu.Keys == (set c | 0 <= c < |s.cur| :: s.cur[c])
    && s.lists.Keys == (set c | 0 <= c < |s.cur| :: OnCpu(c))
    && forall c :: 0 <= c < |s.cur| ==>
         s.phase[c] == Running && s.cur[c] in s.tcpu && s.tcpu[s.cur[c]] == c
         && OnCpu(c) in s.lists && s.lists[OnCpu(c)] == [s.cur[c]]
  }

  lemma InitInv(s: State) returns (loc: map<Tid, Place>)
    requires Init(s)
    ensures Inv(s, loc)
  {
    loc := map t | t in s.tcpu :: OnCpu(s.tcpu[t]);
    forall p | p in s.lists ensures Distinct(s.lists[p]) {
      assert p.OnCpu?;
    }
    forall p, t: Tid ensures Here(s.lists, p, t) <==> t in loc && loc[t] == p {
      if t in loc {
        var c :| 0 <= c < |s.cur| && s.cur[c] == t;
        assert s.lists[OnCpu(c)] == [t];
      }
    }
    forall c | 0 <= c < |s.phase| ensures CpuOk(s, c) {}
    forall t | t in loc ensures ThreadOk(s, t, loc[t]) {
      var c :| 0 <= c < |s.cur| && s.cur[c] == t;
      assert s.lists[OnCpu(c)] == [t];
    }
  }

  ghost predicate IsRun(states: seq<State>, labels: seq<Label>) {
    && |states| == |labels| + 1 && Init(states[0])
    && forall i :: 0 <= i < |labels| ==> Step(states[i], labels[i], states[i + 1])
  }

  lemma {:induction false} RunInv(states: seq<State>, labels: seq<Label>, n: nat) returns (loc: map<Tid, Place>)
    requires IsRun(states, labels) && n <= |labels|
    ensures Inv(states[n], loc)
  {
    hide Inv, Init, Step;
    if n == 0 {
      loc := InitInv(states[0]);
    } else {
      loc := RunInv(states, labels, n - 1);
      loc := StepKeeps(states[n - 1], labels[n - 1], states[n], loc);
    }
  }

  /** In every run, each live thread is in exactly one place, and no zombie is reaped too soon. */
  lemma RunSafe(states: seq<State>, labels: seq<Label>, n: nat)
    requires IsRun(states, labels) && n <= |labels|
    ensures Safe(states[n])
    ensures n < |labels| && labels[n].Reap? ==> ReapOk(states[n], labels[n].c)
  {
    hide Inv, Init, Safe, ReapOk, StepReap;
    var loc := RunInv(states, labels, n);
    InvSafe(states[n], loc);
    if n < |labels| && labels[n].Reap? {
      assert Step(states[n], labels[n], states[n + 1]);
      var _ := ReapKeeps(states[n], states[n + 1], loc, labels[n].c);
    }
  }

  // ----- the life of a thread -----

  predicate IsFirst(s: State, p: Place, t: Tid) { Has(s, p) && At(s.lists, p)[0] == t }

  predicate IsLast(s: State, p: Place, t: Tid) { Has(s, p) && At(s.lists, p)[|At(s.lists, p)| - 1] == t }

  predicate IsAt(s: State, p: Place, i: nat, t: Tid) { i < |At(s.lists, p)| && At(s.lists, p)[i] == t }

  /**
   * Where a thread t, now at p, is after a step: it yields, sleeps and exits from its CPU; it is
   * picked from the head of a run queue or migrates from its tail; it is woken from the head of a
   * channel, by a thread that then makes it runnable on its own CPU; and as a zombie it goes
   * nowhere but away.
   */
  function Goes(s: State, l: Label, t: Tid, p: Place): Option<Place> {
    match p
    case OnCpu(c) =>
      if l == Yield(c) then Some(RunQueue(c))
      else if l.Sleep? && l.c == c then Some(Channel(l.w))
      else if l == Exit(c) then Some(Zombies(c)) else Some(p)
    case RunQueue(c) =>
      if l == Pick(c) && IsFirst(s, p, t) then Some(OnCpu(c))
      else if l == Take(c) && IsLast(s, p, t) then Some(Transit(Migrator(c))) else Some(p)
    case Channel(w) =>
      if l.Wake? && l.w == w && l.c < |s.cur| && IsFirst(s, p, t) then Some(Transit(Waker(s.cur[l.c]))) else Some(p)
    case Zombies(c) => if l == Reap(c) && IsFirst(s, p, t) then None else Some(p)
    case Transit(Waker(h)) =>
      if l.MakeRunnable? && l.c < |s.cur| && s.cur[l.c] == h && IsAt(s, p, l.i, t) && t in s.tcpu
      then Some(RunQueue(s.tcpu[t])) else Some(p)
    case Transit(Migrator(c)) =>
      if l.Give? && l.c == c && IsAt(s, p, l.i, t) then Some(RunQueue(l.d))
      else if l.Return? && l.c == c && IsAt(s, p, l.i, t) then Some(RunQueue(c)) else Some(p)
  }

  /** One thread goes from p to q; all others stay. */
  lemma Follow(s: State, s': State, loc: map<Tid, Place>, p: Place, i: nat, q: Place, t: Tid, r: Place)
    requires Inv(s, loc) && p in s.lists && i < |s.lists[p]| && p != q && s'.lists == Move(s.lists, p, i, q)
    requires Here(s.lists, r, t)
    ensures Here(s'.lists, if r == p && IsAt(s, p, i, t) then q else r, t)
  {
    hide Inv;
    assert Places(s.lists, loc) by { assert Inv(s, loc); InvPlaces(s, loc); }
    MovePlaces(s.lists, loc, p, i, q);
    assert t in loc && loc[t] == r;
    var loc' := loc[s.lists[p][i] := q];
    assert Here(s'.lists, loc'[t], t);
  }

  lemma InvPlaces(s: State, loc: map<Tid, Place>)
    requires Inv(s, loc)
    ensures Places(s.lists, loc)
  {
  }

  lemma LeaveCpu(s: State, l: Label, s': State, loc: map<Tid, Place>, t: Tid, p: Place)
    requires Inv(s, loc) && Step(s, l, s') && Here(s.lists, p, t) && (l.Yield? || l.Sleep? || l.Exit?)
    ensures Here(s'.lists, Goes(s, l, t, p).value, t)
  {
    CpuLeft(s, l, s', loc);
    hide Inv, Move, Step;
    Follow(s, s', loc, OnCpu(l.c), 0, Destination(l), t, p);
  }

  /** Where a thread that leaves its CPU goes. */
  function Destination(l: Label): Place {
    if l.Sleep? then Channel(l.w) else if l.Exit? then Zombies(l.c) else RunQueue(l.c)
  }

  lemma CpuLeft(s: State, l: Label, s': State, loc: map<Tid, Place>)
    requires Inv(s, loc) && Step(s, l, s') && (l.Yield? || l.Sleep? || l.Exit?)
    ensures l.c < |s.cur| && OnCpu(l.c) in s.lists && s.lists[OnCpu(l.c)] == [s.cur[l.c]]
    ensures s'.lists == Move(s.lists, OnCpu(l.c), 0, Destination(l))
  {
    CurrentPlace(s, loc, l.c);
    hide Inv, Move;
  }

  lemma LeaveQueue(s: State, l: Label, s': State, loc: map<Tid, Place>, t: Tid, p: Place)
    requires Inv(s, loc) && Step(s, l, s') && Here(s.lists, p, t) && (l.Pick? || l.Wake? || l.Take?)
    ensures Goes(s, l, t, p).Some? && Here(s'.lists, Goes(s, l, t, p).value, t)
  {
    hide Inv, Move, Here, Open;
    var c := l.c;
    var p0 := if l.Wake? then Channel(l.w) else RunQueue(c);
    var i := if l.Take? then |s.lists[p0]| - 1 else 0;
    var q := if l.Pick? then OnCpu(c) else if l.Wake? then Transit(Waker(s.cur[c])) else Transit(Migrator(c));
    assert s'.lists == Move(s.lists, p0, i, q);
    Follow(s, s', loc, p0, i, q, t, p);
  }

  lemma LeaveTransit(s: State, l: Label, s': State, loc: map<Tid, Place>, t: Tid, p: Place)
    requires Inv(s, loc) && Step(s, l, s') && Here(s.lists, p, t) && (l.MakeRunnable? || l.Give? || l.Return?)
    ensures Goes(s, l, t, p).Some? && Here(s'.lists, Goes(s, l, t, p).value, t)
  {
    hide Inv, Move, Here, Open, Locked;
    var c := l.c;
    var p0 := if l.MakeRunnable? then Transit(Waker(s.cur[c])) else Transit(Migrator(c));
    var x := s.lists[p0][l.i];
    var q := RunQueue(if l.MakeRunnable? then s.tcpu[x] else if l.Give? then l.d else c);
    assert s'.lists == Move(s.lists, p0, l.i, q);
    Follow(s, s', loc, p0, l.i, q, t, p);
  }

  lemma ReapFollow(s: State, l: Label, s': State, loc: map<Tid, Place>, t: Tid, p: Place)
    requires Inv(s, loc) && Step(s, l, s') && Here(s.lists, p, t) && l.Reap?
    ensures Goes(s, l, t, p).None? ==> t !in s'.tcpu
    ensures Goes(s, l, t, p).Some? ==> Here(s'.lists, p, t) && Goes(s, l, t, p).value == p
  {
    InvPlaces(s, loc);
    hide Inv;
    DropPlaces(s.lists, loc, Zombies(l.c), 0);
    var z := s.lists[Zombies(l.c)][0];
    assert t in loc && loc[t] == p;
    if t != z { assert Here(s'.lists, p, t); }
  }

  /** Every thread goes where its life takes it. */
  lemma StepFollow(s: State, l: Label, s': State, loc: map<Tid, Place>, t: Tid, p: Place)
    requires Inv(s, loc) && Step(s, l, s') && Here(s.lists, p, t)
    ensures match Goes(s, l, t, p) case Some(q) => Here(s'.lists, q, t) case None => t !in s'.tcpu
  {
    hide Inv, StepYield, StepSleep, StepExit, StepPick, StepReap, StepWake, StepMakeRunnable, StepTake, StepGive,
         StepReturn, IsFirst, IsLast, IsAt;
    if l.Yield? || l.Sleep? || l.Exit? {
      LeaveCpu(s, l, s', loc, t, p);
    } else if l.Pick? || l.Wake? || l.Take? {
      LeaveQueue(s, l, s', loc, t, p);
    } else if l.MakeRunnable? || l.Give? || l.Return? {
      LeaveTransit(s, l, s', loc, t, p);
    } else if l.Reap? {
      ReapFollow(s, l, s', loc, t, p);
    }
  }

  /** Who is current changes only when a CPU picks, t_cpu only by migration, and threads come only by a fork. */
  lemma StepNames(s: State, l: Label, s': State, loc: map<Tid, Place>, t: Tid)
    requires Inv(s, loc) && Step(s, l, s')
    ensures s'.cur == if l.Pick? then s.cur[l.c := At(s.lists, RunQueue(l.c))[0]] else s.cur
    ensures t in s'.tcpu ==> t in s.tcpu || l == Fork(l.c, t)
    ensures t in s.tcpu && t in s'.tcpu ==>
              s'.tcpu[t] == if l.Give? && IsAt(s, Transit(Migrator(l.c)), l.i, t) then l.d else s.tcpu[t]
  {
    if l.Give? { Mover(s, loc, Transit(Migrator(l.c)), l.i); }
    hide Inv, Move;
  }

  lemma StepForks(s: State, l: Label, s': State, loc: map<Tid, Place>)
    requires Inv(s, loc) && Step(s, l, s') && l.Fork?
    ensures l.t !in s.tcpu && Here(s'.lists, Transit(Waker(s.cur[l.c])), l.t) && l.t in s'.tcpu && s'.tcpu[l.t] == l.c
  {
    CurrentPlace(s, loc, l.c);
  }

  /**
   * In every run: each thread goes where its life takes it, keeps its t_cpu unless it migrates,
   * and becomes current only when picked. A new thread is in its creator's hands, on the
   * creator's CPU.
   */
  lemma RunLife(states: seq<State>, labels: seq<Label>, n: nat, t: Tid, p: Place)
    requires IsRun(states, labels) && n < |labels|
    ensures var s, l, s' := states[n], labels[n], states[n + 1];
            && (Here(s.lists, p, t) ==>
                  match Goes(s, l, t, p) case Some(q) => Here(s'.lists, q, t) case None => t !in s'.tcpu)
            && (l.Pick? ==> l.c < |s.cur| && Has(s, RunQueue(l.c)))
            && s'.cur == (if l.Pick? then s.cur[l.c := At(s.lists, RunQueue(l.c))[0]] else s.cur)
            && (t in s.tcpu && t in s'.tcpu ==>
                  s'.tcpu[t] == if l.Give? && IsAt(s, Transit(Migrator(l.c)), l.i, t) then l.d else s.tcpu[t])
            && (t !in s.tcpu && t in s'.tcpu ==>
                  && l == Fork(l.c, t) && l.c < |s.cur| && s'.tcpu[t] == l.c
                  && Here(s'.lists, Transit(Waker(s.cur[l.c])), t))
  {
    var s, l, s' := states[n], labels[n], states[n + 1];
    assert Step(s, l, s');
    var loc := RunInv(states, labels, n);
    assert l.Pick? ==> StepPick(s, s', l.c);
    assert l.Fork? ==> StepFork(s, s', l.c, l.t);
    hide Inv, Init, Goes, IsRun;
    if Here(s.lists, p, t) { StepFollow(s, l, s', loc, t, p); }
    StepNames(s, l, s', loc, t);
    if l.Fork? { StepForks(s, l, s', loc); }
  }

  lemma {:induction false} RunStays(states: seq<State>, labels: seq<Label>, n: nat, m: nat, t: Tid, p: Place)
    requires IsRun(states, labels) && n <= m <= |labels| && Here(states[n].lists, p, t)
    requires forall k :: n <= k < m ==> Goes(states[k], labels[k], t, p) == Some(p)
    ensures Here(states[m].lists, p, t)
    decreases m
  {
    hide Goes, Here, IsRun;
    if n < m {
      RunStays(states, labels, n, m - 1, t, p);
      RunLife(states, labels, m - 1, t, p);
    }
  }

  /** A zombie of CPU c, or no thread at all. */
  ghost predicate Dead(s: State, c: nat, t: Tid) {
    Here(s.lists, Zombies(c), t) || t !in s.tcpu
  }

  lemma CurrentOf(states: seq<State>, labels: seq<Label>, n: nat)
    requires IsRun(states, labels) && n < |labels| && (labels[n].Yield? || labels[n].Sleep? || labels[n].Exit?)
    ensures labels[n].c < |states[n].cur| && Here(states[n].lists, OnCpu(labels[n].c), states[n].cur[labels[n].c])
  {
    hide Init;
    assert Step(states[n], labels[n], states[n + 1]);
    var loc := RunInv(states, labels, n);
    CurrentPlace(states[n], loc, labels[n].c);
  }

  /**
   * In every run, a thread that exits is on its CPU's zombie list until it is reaped, and never
   * runs, waits or is picked again, until another thread of that name is forked.
   */
  lemma {:induction false} RunExit(states: seq<State>, labels: seq<Label>, n: nat, m: nat)
    requires IsRun(states, labels) && n < m <= |labels| && labels[n].Exit? && labels[n].c < |states[n].cur|
    requires forall k :: n < k < m ==> labels[k] != Fork(labels[k].c, states[n].cur[labels[n].c])
    ensures Dead(states[m], labels[n].c, states[n].cur[labels[n].c])
    decreases m
  {
    var c, t := labels[n].c, states[n].cur[labels[n].c];
    hide IsRun, Dead;
    if m == n + 1 {
      Exited(states, labels, n);
    } else {
      RunExit(states, labels, n, m - 1);
      StaysDead(states, labels, m - 1, c, t);
    }
  }

  lemma Exited(states: seq<State>, labels: seq<Label>, n: nat)
    requires IsRun(states, labels) && n < |labels| && labels[n].Exit? && labels[n].c < |states[n].cur|
    ensures Here(states[n + 1].lists, Zombies(labels[n].c), states[n].cur[labels[n].c])
    ensures Dead(states[n + 1], labels[n].c, states[n].cur[labels[n].c])
  {
    CurrentOf(states, labels, n);
    hide IsRun, Here;
    RunLife(states, labels, n, states[n].cur[labels[n].c], OnCpu(labels[n].c));
  }

  lemma StaysDead(states: seq<State>, labels: seq<Label>, n: nat, c: nat, t: Tid)
    requires IsRun(states, labels) && n < |labels| && Dead(states[n], c, t) && labels[n] != Fork(labels[n].c, t)
    ensures Dead(states[n + 1], c, t)
  {
    hide IsRun, Here;
    RunLife(states, labels, n, t, Zombies(c));
  }

  lemma RunZombie(states: seq<State>, labels: seq<Label>, n: nat, m: nat)
    requires IsRun(states, labels) && n < m <= |labels| && labels[n].Exit? && labels[n].c < |states[n].cur|
    requires forall k :: n < k < m ==>
               !(labels[k] == Reap(labels[n].c) && IsFirst(states[k], Zombies(labels[n].c), states[n].cur[labels[n].c]))
    ensures Here(states[m].lists, Zombies(labels[n].c), states[n].cur[labels[n].c])
  {
    var c, t := labels[n].c, states[n].cur[labels[n].c];
    hide IsRun, Here, IsFirst;
    Exited(states, labels, n);
    RunStays(states, labels, n + 1, m, t, Zombies(c));
  }

  /** In every run, a thread that goes to sleep is on its channel until a wakeup takes it from the head. */
  lemma RunSleep(states: seq<State>, labels: seq<Label>, n: nat, m: nat)
    requires IsRun(states, labels) && n < m <= |labels| && labels[n].Sleep? && labels[n].c < |states[n].cur|
    requires forall k :: n < k < m ==>
               !(labels[k].Wake? && labels[k].w == labels[n].w
                 && IsFirst(states[k], Channel(labels[n].w), states[n].cur[labels[n].c]))
    ensures Here(states[m].lists, Channel(labels[n].w), states[n].cur[labels[n].c])
  {
    CurrentOf(states, labels, n);
    hide IsRun, Here, IsFirst;
    RunLife(states, labels, n, states[n].cur[labels[n].c], OnCpu(labels[n].c));
    RunStays(states, labels, n + 1, m, states[n].cur[labels[n].c], Channel(labels[n].w));
  }

  /** In every run, a thread that yields is on its CPU's queue until it is picked from the head or migrates. */
  lemma RunYield(states: seq<State>, labels: seq<Label>, n: nat, m: nat)
    requires IsRun(states, labels) && n < m <= |labels| && labels[n].Yield? && labels[n].c < |states[n].cur|
    requires var c, t := labels[n].c, states[n].cur[labels[n].c];
             forall k :: n < k < m ==> !(labels[k] == Pick(c) && IsFirst(states[k], RunQueue(c), t))
                                       && !(labels[k] == Take(c) && IsLast(states[k], RunQueue(c), t))
    ensures Here(states[m].lists, RunQueue(labels[n].c), states[n].cur[labels[n].c])
  {
    CurrentOf(states, labels, n);
    hide IsRun, Here, IsFirst, IsLast;
    RunLife(states, labels, n, states[n].cur[labels[n].c], OnCpu(labels[n].c));
    RunStays(states, labels, n + 1, m, states[n].cur[labels[n].c], RunQueue(labels[n].c));
  }

  /**
   * In every run, a wakeup takes the thread at the head of the channel, which then is in the
   * waker's hands until the waker makes it runnable, on the queue of its own CPU.
   */
  lemma RunWake(states: seq<State>, labels: seq<Label>, n: nat, m: nat, t: Tid)
    requires IsRun(states, labels) && n < m < |labels| && labels[n].Wake? && labels[n].c < |states[n].cur|
    requires IsFirst(states[n], Channel(labels[n].w), t)
    requires var h := states[n].cur[labels[n].c];
             forall k :: n < k < m ==>
               !(labels[k].MakeRunnable? && labels[k].c < |states[k].cur| && states[k].cur[labels[k].c] == h
                 && IsAt(states[k], Transit(Waker(h)), labels[k].i, t))
    ensures var h := states[n].cur[labels[n].c];
            && Here(states[m].lists, Transit(Waker(h)), t)
            && (labels[m].MakeRunnable? && labels[m].c < |states[m].cur| && states[m].cur[labels[m].c] == h
                && IsAt(states[m], Transit(Waker(h)), labels[m].i, t) && t in states[m].tcpu ==>
                  Here(states[m + 1].lists, RunQueue(states[m].tcpu[t]), t))
  {
    assert Here(states[n].lists, Channel(labels[n].w), t);
    hide IsRun, Here, IsFirst, IsAt;
    var q := Transit(Waker(states[n].cur[labels[n].c]));
    RunLife(states, labels, n, t, Channel(labels[n].w));
    RunStays(states, labels, n + 1, m, t, q);
    RunLife(states, labels, m, t, q);
  }

  /** What being dead means: on no CPU, no queue and no channel, in nobody's hands, and not the next to be picked. */
  lemma DeadIsIdle(states: seq<State>, labels: seq<Label>, n: nat, c: nat, t: Tid)
    requires IsRun(states, labels) && n <= |labels| && Dead(states[n], c, t)
    ensures forall p :: Here(states[n].lists, p, t) ==> p == Zombies(c)
    ensures n < |labels| && labels[n].Pick? && labels[n].c < |states[n + 1].cur| ==> states[n + 1].cur[labels[n].c] != t
  {
    RunSafe(states, labels, n);
    assert OnePlace(states[n], t);
    if n < |labels| && labels[n].Pick? {
      RunLife(states, labels, n, t, Zombies(c));
      assert Here(states[n].lists, RunQueue(labels[n].c), At(states[n].lists, RunQueue(labels[n].c))[0]);
    }
  }

  // ----- queues -----

  predicate IsQueue(p: Place) { p.RunQueue? || p.Channel? || p.Zombies? }

  lemma CutFlows(q: seq<Tid>, i: nat)
    requires i < |q| && (i == 0 || i == |q| - 1)
    ensures Flows(q, Cut(q, i))
  {
    if i == 0 { assert FlowsBy(q, Cut(q, i), 1, |q|, []); } else { assert FlowsBy(q, Cut(q, i), 0, i, []); }
  }

  lemma JoinFlows(q: seq<Tid>, t: Tid)
    requires t !in q
    ensures Flows(q, q + [t]) && Flows(q, q)
  {
    assert FlowsBy(q, q + [t], 0, |q|, [t]);
    assert FlowsBy(q, q, 0, |q|, []);
  }

  lemma MoveFlows(s: State, s': State, loc: map<Tid, Place>, p: Place, i: nat, q: Place, r: Place)
    requires Inv(s, loc) && p in s.lists && i < |s.lists[p]| && p != q && s'.lists == Move(s.lists, p, i, q)
    requires IsQueue(p) ==> i == 0 || i == |s.lists[p]| - 1
    requires IsQueue(r)
    ensures Flows(At(s.lists, r), At(s'.lists, r))
  {
    InvPlaces(s, loc);
    hide Inv, Flows;
    var t := s.lists[p][i];
    assert Here(s.lists, p, t) && !Here(s.lists, q, t);
    Still(At(s.lists, r));
    if r == p { CutFlows(s.lists[p], i); } else if r == q { JoinFlows(At(s.lists, q), t); }
  }

  lemma Still(q: seq<Tid>)
    ensures Flows(q, q)
  {
    assert FlowsBy(q, q, 0, |q|, []);
  }

  /** Run queues, channels and zombie lists lose threads at the ends and gain them at the back. */
  lemma StepFlows(s: State, l: Label, s': State, loc: map<Tid, Place>, r: Place)
    requires Inv(s, loc) && Step(s, l, s') && IsQueue(r)
    ensures Flows(At(s.lists, r), At(s'.lists, r))
  {
    hide Inv, Flows, Move, Open, Busy, Locked;
    Still(At(s.lists, r));
    match l
    case Yield(c) => MoveFlows(s, s', loc, OnCpu(c), 0, RunQueue(s.tcpu[s.cur[c]]), r);
    case Sleep(c, w) => MoveFlows(s, s', loc, OnCpu(c), 0, Channel(w), r);
    case Exit(c) => MoveFlows(s, s', loc, OnCpu(c), 0, Zombies(c), r);
    case Pick(c) => MoveFlows(s, s', loc, RunQueue(c), 0, OnCpu(c), r);
    case Wake(c, w) => MoveFlows(s, s', loc, Channel(w), 0, Transit(Waker(s.cur[c])), r);
    case MakeRunnable(c, i) =>
      var p := Transit(Waker(s.cur[c]));
      MoveFlows(s, s', loc, p, i, RunQueue(s.tcpu[s.lists[p][i]]), r);
    case Take(c) => MoveFlows(s, s', loc, RunQueue(c), |s.lists[RunQueue(c)]| - 1, Transit(Migrator(c)), r);
    case Give(c, d, i) => MoveFlows(s, s', loc, Transit(Migrator(c)), i, RunQueue(d), r);
    case Return(c, i) => MoveFlows(s, s', loc, Transit(Migrator(c)), i, RunQueue(c), r);
    case Reap(c) => CutFlows(s.lists[Zombies(c)], 0);
    case _ =>
  }

  /**
   * In every run, queues are fair: while u and v are both on a run queue, a channel or a zombie
   * list and u came first, v is not at its head, where threads are picked, woken and reaped.
   */
  lemma {:induction false} RunFifo(states: seq<State>, labels: seq<Label>, n: nat, m: nat, p: Place, u: Tid, v: Tid)
    requires IsRun(states, labels) && n <= m <= |labels| && IsQueue(p) && Before(At(states[n].lists, p), u, v)
    requires forall k :: n <= k <= m ==> Here(states[k].lists, p, u) && Here(states[k].lists, p, v)
    ensures Before(At(states[m].lists, p), u, v) && !IsFirst(states[m], p, v)
    decreases m
  {
    hide Inv, Init, Step, Before, Distinct;
    var loc := RunInv(states, labels, m);
    if n < m {
      var was := RunInv(states, labels, m - 1);
      RunFifo(states, labels, n, m - 1, p, u, v);
      StepOrder(states[m - 1], labels[m - 1], states[m], was, loc, p, u, v);
    }
    OnceListed(states[m], loc, p);
    NotFirst(At(states[m].lists, p), u, v);
  }

  lemma OnceListed(s: State, loc: map<Tid, Place>, p: Place)
    requires Inv(s, loc)
    ensures Distinct(At(s.lists, p))
  {
  }

  lemma StepOrder(s: State, l: Label, s': State, loc: map<Tid, Place>, loc': map<Tid, Place>, p: Place, u: Tid, v: Tid)
    requires Inv(s, loc) && Inv(s', loc') && Step(s, l, s') && IsQueue(p) && Before(At(s.lists, p), u, v)
    requires Here(s'.lists, p, u) && Here(s'.lists, p, v)
    ensures Before(At(s'.lists, p), u, v)
  {
    hide Inv, Step, Before, Distinct, Flows;
    OnceListed(s, loc, p);
    OnceListed(s', loc', p);
    StepFlows(s, l, s', loc, p);
    FlowKeeps(At(s.lists, p), At(s'.lists, p), u, v);
  }

  /** A CPU's course through thread_switch, by its own steps so far. */
  function Course(labels: seq<Label>, c: nat): Phase {
    if labels == [] then Running
    else
      var before, l := Course(labels[..|labels| - 1], c), labels[|labels| - 1];
      if l.c != c then before
      else match l
           case Yield(_) => Choosing
           case Sleep(_, _) => Choosing
           case Exit(_) => Choosing
           case Relock(_) => Choosing
           case Pick(_) => Landed
           case GoIdle(_) => Idle
           case Unlock(_) => Tail
           case Resume(_) => Running
           case _ => before
  }

  /** Whenever a CPU is back in a thread, its zombies have been reaped. */
  ghost predicate Clean(s: State) {
    forall c :: 0 <= c < |s.phase| && s.phase[c].Running? ==> !Has(s, Zombies(c))
  }

  lemma StepCourse(s: State, l: Label, s': State, labels: seq<Label>, c: nat)
    requires Step(s, l, s') && c < |s.phase| && Course(labels, c) == s.phase[c]
    ensures |s'.phase| == |s.phase| && Course(labels + [l], c) == s'.phase[c]
  {
    hide Move;
    assert (labels + [l])[..|labels|] == labels;
  }

  lemma StepClean(s: State, l: Label, s': State)
    requires Step(s, l, s') && Clean(s)
    ensures Clean(s')
  {
  }

  /**
   * In every run: a CPU that has left its thread chooses another one, under the lock of its run
   * queue, lands on that one's stack, releases the lock and reaps its zombies before it runs on;
   * it idles only when its queue is empty, and while it holds the lock no other CPU's step
   * changes the queue.
   */
  lemma {:induction false} RunCourse(states: seq<State>, labels: seq<Label>, n: nat, c: nat)
    requires IsRun(states, labels) && n <= |labels| && c < |states[0].phase|
    ensures |states[n].phase| == |states[0].phase| && states[n].phase[c] == Course(labels[..n], c)
    ensures states[n].phase[c].Running? ==> !Has(states[n], Zombies(c))
    ensures n < |labels| && labels[n] == GoIdle(c) ==> !Has(states[n], RunQueue(c))
    ensures n < |labels| && labels[n] == Yield(c) ==> Has(states[n], RunQueue(c))
    ensures n < |labels| && labels[n].c != c && Locked(states[n].phase[c]) ==>
              At(states[n + 1].lists, RunQueue(c)) == At(states[n].lists, RunQueue(c))
  {
    CourseSoFar(states, labels, n, c);
    if n < |labels| {
      assert Step(states[n], labels[n], states[n + 1]);
      var loc := RunInv(states, labels, n);
      Locks(states[n], labels[n], states[n + 1], loc, c);
    }
  }

  lemma {:induction false} CourseSoFar(states: seq<State>, labels: seq<Label>, n: nat, c: nat)
    requires IsRun(states, labels) && n <= |labels| && c < |states[0].phase|
    ensures |states[n].phase| == |states[0].phase| && states[n].phase[c] == Course(labels[..n], c) && Clean(states[n])
  {
    if n == 0 {
      assert labels[..0] == [];
    } else {
      CourseSoFar(states, labels, n - 1, c);
      assert labels[..n] == labels[..n - 1] + [labels[n - 1]];
      hide Init, Course, Clean;
      assert Step(states[n - 1], labels[n - 1], states[n]);
      StepCourse(states[n - 1], labels[n - 1], states[n], labels[..n - 1], c);
      StepClean(states[n - 1], labels[n - 1], states[n]);
    }
  }

  /** What the run-queue lock is for. */
  lemma Locks(s: State, l: Label, s': State, loc: map<Tid, Place>, c: nat)
    requires Inv(s, loc) && Step(s, l, s') && c < |s.phase|
    ensures l == GoIdle(c) ==> !Has(s, RunQueue(c))
    ensures l == Yield(c) ==> Has(s, RunQueue(c))
    ensures l.c != c && Locked(s.phase[c]) ==> At(s'.lists, RunQueue(c)) == At(s.lists, RunQueue(c))
  {
    if l.c < |s.phase| { CurrentPlace(s, loc, l.c); }
    if l.Yield? { CurrentPlace(s, loc, l.c); }
    hide Inv;
  }

  /**
   * In every run: a thread forks, yields, sleeps and exits only while it runs, and sleeps or exits
   * with no other thread in hand; threads change hands only on a CPU that runs or idles; and
   * migration is to another CPU.
   */
  lemma RunDiscipline(states: seq<State>, labels: seq<Label>, n: nat)
    requires IsRun(states, labels) && n < |labels|
    ensures var s, l := states[n], labels[n];
            && l.c < |s.phase| == |s.cur|
            && (l.Fork? || l.Yield? || l.Sleep? || l.Exit? ==> s.phase[l.c].Running?)
            && (l.Sleep? || l.Exit? ==> !Has(s, Transit(Waker(s.cur[l.c]))) && !Has(s, Transit(Migrator(l.c))))
            && (l.Wake? || l.MakeRunnable? || l.Take? || l.Give? || l.Return? ==>
                  s.phase[l.c].Running? || s.phase[l.c].Idle?)
            && (l.Give? ==> l.d != l.c)
  {
    RunSafe(states, labels, n);
    assert Step(states[n], labels[n], states[n + 1]);
    hide Init, Move, OnePlace, OwnThreads;
  }
}
