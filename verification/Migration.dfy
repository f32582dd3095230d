/**
 * Balancing of run queues between CPUs (thread_consider_migration in kern/thread/thread.c).
 *
 * Each time the CPU takes a run-queue lock, the other CPUs may have run: `env` says what
 * they made of the queues. They may do as they like with their own queues, but only a CPU
 * itself removes threads from its own run queue, and nobody touches a thread in transit.
 */
module Migration {
  import opened Common

  datatype World = World(queues: seq<seq<Tid>>, tcpu: map<Tid, nat>)

  type Environment = (nat, World, seq<Tid>) -> World

  // ----- what the queues hold -----

  ghost predicate QueueOk(w: World, c: nat)
    requires c < |w.queues|
  {
    Distinct(w.queues[c]) && forall t :: t in w.queues[c] ==> t in w.tcpu && w.tcpu[t] == c
  }

  ghost predicate NotQueued(w: World, t: Tid) {
    forall c :: 0 <= c < |w.queues| ==> t !in w.queues[c]
  }

  /**
   * Every queued thread is on the queue of its own CPU, once; those held in transit by
   * CPU `me` are on no queue and still belong to `me`.
   */
  ghost predicate Placed(w: World, held: seq<Tid>, me: nat) {
    && (forall c :: 0 <= c < |w.queues| ==> QueueOk(w, c))
    && Distinct(held)
    && forall t :: t in held ==> NotQueued(w, t) && t in w.tcpu && w.tcpu[t] == me
  }

  /** What the rest of the machine may do while CPU `me` holds no run-queue lock. */
  ghost predicate Rely(env: Environment, me: nat) {
    forall k: nat, w: World, held: seq<Tid> ::
      var w' := env(k, w, held);
      && |w'.queues| == |w.queues|
      && (me < |w.queues| ==> w.queues[me] <= w'.queues[me])
      && (Placed(w, held, me) ==> Placed(w', held, me))
  }

  ghost predicate Quiet(env: Environment) {
    forall k: nat, w: World, held: seq<Tid> :: env(k, w, held) == w
  }

  ghost function AllThreads(qs: seq<seq<Tid>>): multiset<Tid> {
    if qs == [] then multiset{} else AllThreads(qs[..|qs| - 1]) + multiset(qs[|qs| - 1])
  }

  function Total(qs: seq<seq<Tid>>, n: nat): nat
    requires n <= |qs|
  {
    if n == 0 then 0 else Total(qs, n - 1) + |qs[n - 1]|
  }

  /** The multiset of all queues together: of one queue, its threads; of two lots of queues, the sum. */
  lemma {:induction false} AllThreadsConcat(a: seq<seq<Tid>>, b: seq<seq<Tid>>)
    ensures AllThreads(a + b) == AllThreads(a) + AllThreads(b)
    ensures |b| == 1 ==> AllThreads(b) == multiset(b[0])
    decreases |b|
  {
    if b == [] {
      assert a + b == a;
    } else {
      var n := |b| - 1;
      assert (a + b)[..|a| + n] == a + b[..n];
      AllThreadsConcat(a, b[..n]);
    }
  }

  /** The total is the number of threads on the first n queues. */
  lemma {:induction false} TotalIsSize(qs: seq<seq<Tid>>, n: nat)
    requires n <= |qs|
    ensures Total(qs, n) == |AllThreads(qs[..n])|
  {
    if n > 0 {
      TotalIsSize(qs, n - 1);
      assert qs[..n][..n - 1] == qs[..n - 1];
    }
  }

  /** DIVROUNDUP of the thread count by the CPU count. */
  function Share(total: nat, n: nat): (s: nat)
    requires n > 0
    ensures s * n >= total && (s > 0 ==> (s - 1) * n < total)
  {
    (total + n - 1) / n
  }

  /** Of the threads handed round, the one that must stay: the current thread, if it was met. */
  function Skipped(v: seq<Tid>, curthread: Tid): seq<Tid> {
    if curthread in v then [curthread] else []
  }

  // ----- room on the other queues -----

  function Lack(q: seq<Tid>, share: nat): nat {
    if |q| < share then share - |q| else 0
  }

  /** How many threads the queues from c on, other than mine, could take up to their share. */
  function Room(qs: seq<seq<Tid>>, me: nat, share: nat, c: nat): nat
    requires c <= |qs|
    decreases |qs| - c
  {
    if c == |qs| then 0 else (if c == me then 0 else Lack(qs[c], share)) + Room(qs, me, share, c + 1)
  }

  lemma {:induction false} RoomSplit(qs: seq<seq<Tid>>, me: nat, share: nat, c: nat)
    requires c <= |qs|
    ensures Room(qs, me, share, c) >= share * (|qs| - c) - (Total(qs, |qs|) - Total(qs, c))
                                      - (if c <= me < |qs| then share - |qs[me]| else 0)
    decreases |qs| - c
  {
    if c < |qs| {
      RoomSplit(qs, me, share, c + 1);
      assert share * (|qs| - c) == share * (|qs| - (c + 1)) + share;
    }
  }

  /** The other queues always have room for everything above my share. */
  lemma RoomEnough(qs: seq<seq<Tid>>, me: nat, share: nat)
    requires me < |qs| && share == Share(|AllThreads(qs)|, |qs|)
    ensures Room(qs, me, share, 0) >= |qs[me]| - share
  {
    TotalIsSize(qs, |qs|);
    assert qs[..|qs|] == qs;
    RoomSplit(qs, me, share, 0);
  }

  lemma {:induction false} RoomSame(qs: seq<seq<Tid>>, qs': seq<seq<Tid>>, me: nat, share: nat, c: nat)
    requires |qs| == |qs'| && c <= |qs| && forall d :: c <= d < |qs| && d != me ==> qs'[d] == qs[d]
    ensures Room(qs', me, share, c) == Room(qs, me, share, c)
    decreases |qs| - c
  {
    if c < |qs| { RoomSame(qs, qs', me, share, c + 1); }
  }

  /** The queues with s appended to queue c. */
  function Grow(qs: seq<seq<Tid>>, c: nat, s: seq<Tid>): (r: seq<seq<Tid>>)
    requires c < |qs|
    ensures |r| == |qs| && r[c] == qs[c] + s && forall d :: 0 <= d < |qs| && d != c ==> r[d] == qs[d]
  {
    qs[c := qs[c] + s]
  }

  lemma GrowNothing(qs: seq<seq<Tid>>, c: nat)
    requires c < |qs|
    ensures Grow(qs, c, []) == qs
  {
    assert qs[c] + [] == qs[c];
  }

  lemma GrowMore(qs: seq<seq<Tid>>, c: nat, s: seq<Tid>, t: Tid)
    requires c < |qs|
    ensures Grow(Grow(qs, c, s), c, [t]) == Grow(qs, c, s + [t])
  {
    assert qs[c] + s + [t] == qs[c] + (s + [t]);
  }

  lemma {:induction false} AllThreadsGrow(qs: seq<seq<Tid>>, c: nat, s: seq<Tid>)
    requires c < |qs|
    ensures AllThreads(Grow(qs, c, s)) == AllThreads(qs) + multiset(s)
    decreases |qs|
  {
    var n, r := |qs| - 1, Grow(qs, c, s);
    if c == n {
      assert r[..n] == qs[..n];
      assert multiset(qs[n] + s) == multiset(qs[n]) + multiset(s);
    } else {
      assert r[..n] == Grow(qs[..n], c, s);
      AllThreadsGrow(qs[..n], c, s);
    }
  }

  // ----- moving one thread keeps every thread in its place -----

  lemma TakeKeepsPlaced(w: World, held: seq<Tid>, me: nat)
    requires Placed(w, held, me) && me < |w.queues| && w.queues[me] != []
    ensures var q := w.queues[me]; var n := |q| - 1;
            Placed(w.(queues := w.queues[me := q[..n]]), [q[n]] + held, me)
  {
    var q := w.queues[me];
    var n := |q| - 1;
    var w' := w.(queues := w.queues[me := q[..n]]);
    assert q[n] in q && QueueOk(w, me);
    forall d | 0 <= d < |w'.queues| ensures QueueOk(w', d) && q[n] !in w'.queues[d] { assert QueueOk(w, d); }
    forall t | t in held ensures NotQueued(w', t) && t != q[n] { assert NotQueued(w, t); }
  }

  lemma GiveKeepsPlaced(w: World, held: seq<Tid>, me: nat, c: nat)
    requires Placed(w, held, me) && c < |w.queues| && held != []
    ensures Placed(World(Grow(w.queues, c, [held[0]]), w.tcpu[held[0] := c]), held[1..], me)
  {
    var t := held[0];
    var w' := World(Grow(w.queues, c, [t]), w.tcpu[t := c]);
    assert NotQueued(w, t);
    forall d | 0 <= d < |w'.queues| ensures QueueOk(w', d) { assert QueueOk(w, d); }
    forall u | u in held[1..] ensures NotQueued(w', u) && u != t { assert NotQueued(w, u); }
  }

  lemma RotateKeepsPlaced(w: World, held: seq<Tid>, me: nat)
    requires Placed(w, held, me) && held != []
    ensures Placed(w, held[1..] + [held[0]], me)
  {
  }

  /** The victims' list once all but the last toSend of v have been dealt with. */
  function Remaining(v: seq<Tid>, toSend: nat, curthread: Tid): seq<Tid>
    requires toSend <= |v|
  {
    v[|v| - toSend..] + Skipped(v[..|v| - toSend], curthread)
  }

  /** One turn of the hand-out loop, on the victims' list alone. */
  lemma NextVictim(v: seq<Tid>, toSend: nat, curthread: Tid)
    requires 0 < toSend <= |v| && Distinct(v)
    ensures var vs := Remaining(v, toSend, curthread);
            vs != [] && Remaining(v, toSend - 1, curthread) == if vs[0] == curthread then vs[1..] + [vs[0]] else vs[1..]
  {
  }

  lemma AllRemain(v: seq<Tid>, curthread: Tid)
    ensures Remaining(v, |v|, curthread) == v && Remaining(v, 0, curthread) == Skipped(v, curthread)
  {
  }

  predicate EndsWith(q: seq<Tid>, s: seq<Tid>) {
    |s| <= |q| && q[|q| - |s|..] == s
  }

  /** What handing out may do: my queue is left alone, the others grow at most to their share. */
  ghost predicate HandedOut(qs: seq<seq<Tid>>, qs': seq<seq<Tid>>, me: nat, share: nat) {
    && |qs'| == |qs| && me < |qs| && qs'[me] == qs[me]
    && forall c :: 0 <= c < |qs| ==> qs[c] <= qs'[c] && (|qs'[c]| <= |qs[c]| || |qs'[c]| <= share)
  }

  /** One CPU topped up: given is appended, up to the share, and no more is left than could not go. */
  ghost predicate Filled(qs: seq<seq<Tid>>, qs': seq<seq<Tid>>, c: nat, share: nat, given: seq<Tid>, toSend: nat,
    toSend': nat) {
    && c < |qs| && qs' == Grow(qs, c, given)
    && (|qs'[c]| <= |qs[c]| || |qs'[c]| <= share)
    && (toSend' == 0 || share <= |qs'[c]|)
    && |given| + toSend' <= toSend
  }

  /** The hand-out loop before CPU i, when nobody interferes. */
  ghost predicate Undisturbed(qs0: seq<seq<Tid>>, qs: seq<seq<Tid>>, me: nat, share: nat,
                              v: seq<Tid>, victims: seq<Tid>, toSend: nat, i: nat) {
    && HandedOut(qs0, qs, me, share) && i <= |qs|
    && (forall c :: i <= c < |qs| ==> qs[c] == qs0[c])
    && (Room(qs0, me, share, 0) >= |v| ==> Room(qs, me, share, i) >= toSend)
    && AllThreads(qs) + multiset(victims) == AllThreads(qs0) + multiset(v)
  }

  lemma UndisturbedStep(qs0: seq<seq<Tid>>, qs: seq<seq<Tid>>, qs': seq<seq<Tid>>, me: nat, share: nat, v: seq<Tid>,
                        victims: seq<Tid>, victims': seq<Tid>, toSend: nat, toSend': nat, i: nat, given: seq<Tid>)
    requires Undisturbed(qs0, qs, me, share, v, victims, toSend, i) && i != me
    requires Filled(qs, qs', i, share, given, toSend, toSend')
    requires multiset(given) + multiset(victims') == multiset(victims)
    ensures Undisturbed(qs0, qs', me, share, v, victims', toSend', i + 1)
  {
    RoomSame(qs, qs', me, share, i + 1);
    AllThreadsGrow(qs, i, given);
  }

  class Machine {
    var queues: seq<seq<Tid>>
    var tcpu: map<Tid, nat>
    var acquisitions: nat
    const me: nat
    const curthread: Tid
    const env: Environment

    ghost function W(): World
      reads this
    {
      World(queues, tcpu)
    }

    ghost predicate Valid(held: seq<Tid>)
      reads this
    {
      me < |queues| && Rely(env, me) && Placed(W(), held, me)
    }

    /** Obtains a run-queue lock; until then the other CPUs run. */
    method Acquire(held: seq<Tid>)
      requires Valid(held)
      modifies this
      ensures Valid(held) && W() == env(old(acquisitions), old(W()), held)
      ensures |queues| == |old(queues)| && old(queues)[me] <= queues[me]
      ensures Quiet(env) ==> W() == old(W())
    {
      hide Placed;
      var w := env(acquisitions, World(queues, tcpu), held);
      queues, tcpu, acquisitions := w.queues, w.tcpu, acquisitions + 1;
    }

    /** Adds up the queue lengths, one lock at a time. */
    method Count() returns (myCount: nat, totalCount: nat)
      requires Valid([])
      modifies this
      ensures Valid([]) && |queues| == |old(queues)| && myCount <= |queues[me]|
      ensures Quiet(env) ==> W() == old(W()) && myCount == |queues[me]| && totalCount == Total(queues, |queues|)
      ensures Quiet(env) ==> totalCount == |AllThreads(queues)|
    {
      hide Placed, Rely, Quiet;
      myCount, totalCount := 0, 0;
      var i := 0;
      while i < |queues|
        invariant i <= |queues| && Valid([]) && |queues| == |old(queues)| && myCount <= |queues[me]|
        invariant Quiet(env) ==>
                    W() == old(W()) && totalCount == Total(queues, i) && (me < i ==> myCount == |queues[me]|)
        decreases |queues| - i
      {
        Acquire([]);
        totalCount := totalCount + |queues[i]|;
        if i == me {
          myCount := |queues[i]|;
        }
        i := i + 1;
      }
      TotalIsSize(queues, |queues|);
      assert queues[..|queues|] == queues;
    }

    /** Moves the last `toSend` threads of my queue to the victims' list, in order. */
    method TakeVictims(toSend: nat) returns (victims: seq<Tid>)
      requires Valid([]) && toSend <= |queues[me]|
      modifies this
      ensures |victims| == toSend && |queues| == |old(queues)| && Valid(victims)
      ensures Quiet(env) ==> tcpu == old(tcpu) && old(queues) == Grow(queues, me, victims)
    {
      hide Placed, Rely, Quiet;
      Acquire([]);
      ghost var w0 := W();
      victims := [];
      var i := 0;
      GrowNothing(queues, me);
      while i < toSend
        invariant i <= toSend && |victims| == i && Valid(victims)
        invariant tcpu == w0.tcpu && |queues| == |w0.queues| && w0.queues == Grow(queues, me, victims)
      {
        var q := queues[me];
        var n := |q| - 1;                       // the queue is not empty: no NULL comes back
        TakeKeepsPlaced(W(), victims, me);
        assert q + victims == q[..n] + ([q[n]] + victims);
        victims := [q[n]] + victims;
        queues := queues[me := q[..n]];
        i := i + 1;
      }
    }

    /** Under CPU c's lock: hands over victims until c has its share or none are left to send. */
    method Fill(c: nat, share: nat, victims: seq<Tid>, toSend: nat, ghost v: seq<Tid>)
      returns (victims': seq<Tid>, toSend': nat, ghost given: seq<Tid>)
      requires Valid(victims) && c < |queues| && c != me && toSend <= |v|
      requires victims == Remaining(v, toSend, curthread) && Distinct(v)
      modifies this`queues, this`tcpu
      ensures Valid(victims') && toSend' <= toSend
      ensures victims' == Remaining(v, toSend', curthread)
      ensures curthread !in given && Filled(old(queues), queues, c, share, given, toSend, toSend')
      ensures multiset(given) + multiset(victims') == multiset(victims)
    {
      hide Placed, Rely, Grow, Distinct, Remaining;
      victims', toSend', given := victims, toSend, [];
      GrowNothing(queues, c);
      while |queues[c]| < share && toSend' > 0
        invariant Valid(victims') && toSend' <= toSend && |queues| == |old(queues)|
        invariant victims' == Remaining(v, toSend', curthread)
        invariant curthread !in given && queues == Grow(old(queues), c, given)
        invariant |queues[c]| <= |old(queues)[c]| || |queues[c]| <= share
        invariant |given| + toSend' <= toSend
        invariant multiset(given) + multiset(victims') == multiset(victims)
        decreases toSend'
      {
        NextVictim(v, toSend', curthread);
        var t := victims'[0];                   // victims outnumber toSend: no NULL comes back
        assert victims' == [t] + victims'[1..];
        assert multiset(victims') == multiset{t} + multiset(victims'[1..]);
        if t == curthread {
          RotateKeepsPlaced(W(), victims', me);
          victims' := victims'[1..] + [t];
        } else {
          GiveKeepsPlaced(W(), victims', me, c);
          GrowMore(old(queues), c, given, t);
          victims' := victims'[1..];
          tcpu := tcpu[t := c];
          queues := Grow(queues, c, [t]);
          given := given + [t];
        }
        toSend' := toSend' - 1;
      }
    }

    /** Offers the victims to every other CPU in turn. */
    method HandOut(share: nat, v: seq<Tid>) returns (victims: seq<Tid>, ghost given: seq<Tid>)
      requires Valid(v)
      modifies this
      ensures Valid(victims) && |queues| == |old(queues)|
      ensures curthread !in given && multiset(given) + multiset(victims) == multiset(v)
      ensures Quiet(env) && Room(old(queues), me, share, 0) >= |v| ==> victims == Skipped(v, curthread)
      ensures Quiet(env) ==> HandedOut(old(queues), queues, me, share)
                             && AllThreads(queues) + multiset(victims) == AllThreads(old(queues)) + multiset(v)
    {
      hide Rely, Quiet, Filled, Remaining, Skipped, Distinct;
      assert Distinct(v);
      hide Placed;
      victims, given := v, [];
      var i: nat, toSend: nat := 0, |v|;
      AllRemain(v, curthread);
      while i < |queues| && toSend > 0
        invariant i <= |queues| == |old(queues)| && Valid(victims) && toSend <= |v|
        invariant victims == Remaining(v, toSend, curthread)
        invariant curthread !in given && multiset(given) + multiset(victims) == multiset(v)
        invariant Quiet(env) ==> Undisturbed(old(queues), queues, me, share, v, victims, toSend, i)
        decreases |queues| - i
      {
        if i != me {
          Acquire(victims);
          ghost var qs, vs, ts := queues, victims, toSend;
          ghost var some;
          victims, toSend, some := Fill(i, share, victims, toSend, v);
          given := given + some;
          if Quiet(env) {
            UndisturbedStep(old(queues), qs, queues, me, share, v, vs, victims, ts, toSend, i, some);
          }
          assert |queues| == |old(queues)| by { FilledLength(qs, queues, i, share, some, ts, toSend); }
        }
        i := i + 1;
      }
    }

    /** Puts the leftovers back on my own queue. */
    method PutBack(leftovers: seq<Tid>)
      requires Valid(leftovers)
      modifies this
      ensures Valid([]) && |queues| == |old(queues)| && EndsWith(queues[me], leftovers)
      ensures Quiet(env) ==> W() == World(Grow(old(queues), me, leftovers), old(tcpu))
    {
      hide Rely, Quiet, Grow;
      GrowNothing(queues, me);
      if |leftovers| > 0 {
        Acquire(leftovers);
        ghost var w0 := W();
        var victims := leftovers;
        GrowNothing(queues, me);
        while |victims| > 0
          invariant Valid(victims) && tcpu == w0.tcpu && |victims| <= |leftovers| && me < |w0.queues|
          invariant victims == leftovers[|leftovers| - |victims|..]
          invariant queues == Grow(w0.queues, me, leftovers[..|leftovers| - |victims|])
          decreases |victims|
        {
          var t := victims[0];
          GiveKeepsPlaced(W(), victims, me, me);
          assert tcpu[t := me] == tcpu;
          ghost var n := |leftovers| - |victims|;
          GrowMore(w0.queues, me, leftovers[..n], t);
          assert leftovers[..n] + [t] == leftovers[..n + 1];
          queues := Grow(queues, me, [t]);
          victims := victims[1..];
        }
        assert victims == [] && leftovers[..|leftovers|] == leftovers;
      }
    }

    /**
     * The whole of thread_consider_migration. Whatever the other CPUs do meanwhile, every
     * thread taken is either given to another CPU or back at the end of my queue, each thread
     * queued is queued once and on its own CPU, and the current thread is never given away.
     * When nobody interferes, my queue keeps exactly its share from the front, plus the
     * current thread if it was queued beyond that.
     */
    method ConsiderMigration() returns (ghost taken: seq<Tid>, ghost given: seq<Tid>, ghost returned: seq<Tid>)
      requires Valid([])
      modifies this
      ensures Valid([]) && |queues| == |old(queues)|
      ensures multiset(taken) == multiset(given) + multiset(returned) && curthread !in given
            && EndsWith(queues[me], returned)
      ensures Quiet(env) ==> AllThreads(queues) == AllThreads(old(queues))
      ensures Quiet(env) ==> Balanced(old(queues), queues, me, curthread)
    {
      hide Placed, Rely, Quiet, Grow, HandedOut, Balanced, Share;
      taken, given, returned := [], [], [];
      var numcpus := |queues|;
      var myCount, totalCount := Count();
      var share := Share(totalCount, numcpus);
      if myCount < share {
        if Quiet(env) { BalancedAlready(queues, me, curthread); }
        return;
      }
      var victims := TakeVictims(myCount - share);
      ghost var qs := queues;
      taken := victims;
      victims, given := HandOut(share, victims);
      ghost var qs' := queues;
      PutBack(victims);
      returned := victims;
      if Quiet(env) {
        BalancedEnd(old(queues), qs, qs', me, share, taken, returned, curthread);
      }
    }
  }

  lemma FilledLength(qs: seq<seq<Tid>>, qs': seq<seq<Tid>>, c: nat, share: nat, given: seq<Tid>, toSend: nat,
    toSend': nat)
    requires Filled(qs, qs', c, share, given, toSend, toSend')
    ensures |qs'| == |qs|
  {
  }

  /** The state migration should reach from qs: an excess over the share has moved, nothing else has. */
  ghost predicate Balanced(qs: seq<seq<Tid>>, qs': seq<seq<Tid>>, me: nat, curthread: Tid) {
    && |qs'| == |qs| && me < |qs|
    && var share := Share(|AllThreads(qs)|, |qs|);
       if |qs[me]| < share then qs' == qs
       else
         && qs'[me] == qs[me][..share] + Skipped(qs[me][share..], curthread)
         && forall c :: 0 <= c < |qs| && c != me ==> qs[c] <= qs'[c] && (|qs'[c]| <= |qs[c]| || |qs'[c]| <= share)
  }

  lemma BalancedAlready(qs: seq<seq<Tid>>, me: nat, curthread: Tid)
    requires me < |qs| && |qs[me]| < Share(|AllThreads(qs)|, |qs|)
    ensures Balanced(qs, qs, me, curthread)
  {
  }

  lemma BalancedEnd(qs0: seq<seq<Tid>>, qs1: seq<seq<Tid>>, qs2: seq<seq<Tid>>, me: nat, share: nat,
                    taken: seq<Tid>, leftovers: seq<Tid>, curthread: Tid)
    requires me < |qs0| == |qs1| && qs0 == Grow(qs1, me, taken) && HandedOut(qs1, qs2, me, share)
    requires share == Share(|AllThreads(qs0)|, |qs0|) <= |qs0[me]| && |taken| == |qs0[me]| - share
    requires Room(qs1, me, share, 0) >= |taken| ==> leftovers == Skipped(taken, curthread)
    requires AllThreads(qs2) + multiset(leftovers) == AllThreads(qs1) + multiset(taken)
    ensures Balanced(qs0, Grow(qs2, me, leftovers), me, curthread)
    ensures AllThreads(Grow(qs2, me, leftovers)) == AllThreads(qs0)
  {
    hide Share, AllThreads, Room, Skipped;
    RoomEnough(qs0, me, share);
    RoomSame(qs0, qs1, me, share, 0);
    AllThreadsGrow(qs1, me, taken);
    AllThreadsGrow(qs2, me, leftovers);
    TakenIsRest(qs0, qs1, me, share, taken);
  }

  lemma TakenIsRest(qs0: seq<seq<Tid>>, qs1: seq<seq<Tid>>, me: nat, share: nat, taken: seq<Tid>)
    requires me < |qs0| == |qs1| && qs0 == Grow(qs1, me, taken) && share <= |qs0[me]| && |taken| == |qs0[me]| - share
    ensures qs0[me][..share] == qs1[me] && qs0[me][share..] == taken
  {
  }
}
