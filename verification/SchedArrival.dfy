/** First come, first served: every queue stays in the order in which its processes arrived. */
module SchedArrival {
  import opened SchedSpec
  import opened SchedInvariant
  import opened SchedLiveness

  // ----- Stamps -----

  predicate Stands(q: seq<Proc>, pid: nat) { exists k :: 0 <= k < |q| && q[k].pid == pid }

  /**
    The arrival stamps of a queue after a step: who was in the queue before keeps his stamp, and
    newcomers are stamped now, in the order in which they stand.
   */
  function Restamp(q: seq<Proc>, r: seq<Proc>, stamps: map<nat, nat>, now: nat): map<nat, nat>
  {
    map k | 0 <= k < |r| :: r[k].pid :=
      if Stands(q, r[k].pid) && r[k].pid in stamps then stamps[r[k].pid] else now + IndexOf(r, r[k].pid)
  }

  /** All stamps of the queue are in the past, and grow from head to tail. */
  ghost predicate InOrder(q: seq<Proc>, stamps: map<nat, nat>, now: nat)
  {
    && (forall k :: 0 <= k < |q| ==> q[k].pid in stamps && stamps[q[k].pid] < now)
    && (forall j, k :: 0 <= j < k < |q| ==> stamps[q[j].pid] < stamps[q[k].pid])
  }

  /** One table of stamps for each queue. */
  type Stamps = s: seq<map<nat, nat>> | |s| == 5 witness [map[], map[], map[], map[], map[]]

  ghost predicate Ordered(s: Sched, stamps: Stamps, now: nat)
    requires |s.queues| == 5
  {
    forall i :: 0 <= i < 5 ==> InOrder(s.queues[i], stamps[i], now)
  }

  ghost function Stamped(s: Sched, e: Event, stamps: Stamps, now: nat): Stamps
    requires Inv(s) && Enabled(s, e)
  {
    StepInv(s, e);
    seq(5, i requires 0 <= i < 5 => Restamp(s.queues[i], Step(s, e).queues[i], stamps[i], now))
  }

  ghost function Clock(s: Sched, e: Event, now: nat): nat
    requires Inv(s) && Enabled(s, e)
  {
    StepInv(s, e);
    now + Population(Step(s, e))
  }

  /** The stamps at the end of a run. */
  ghost function RunStamps(s: Sched, es: seq<Event>, stamps: Stamps, now: nat): (Stamps, nat)
    requires Inv(s) && Runs(s, es)
    decreases |es|
  {
    if es == [] then (stamps, now)
    else
      StepInv(s, es[0]);
      RunStamps(Step(s, es[0]), es[1..], Stamped(s, es[0], stamps, now), Clock(s, es[0], now))
  }

  // ----- Subsequences -----

  /** The processes of a stand in q in the same order. */
  predicate Sub(a: seq<Proc>, q: seq<Proc>)
    decreases |q|
  {
    a == [] ||
    (q != [] &&
     if a[|a| - 1].pid == q[|q| - 1].pid then Sub(a[..|a| - 1], q[..|q| - 1]) else Sub(a, q[..|q| - 1]))
  }

  lemma {:induction false} SubSelf(q: seq<Proc>)
    ensures Sub(q, q)
    decreases |q|
  {
    if q != [] {
      SubSelf(q[..|q| - 1]);
    }
  }

  lemma {:induction false} SubInit(a: seq<Proc>, q: seq<Proc>)
    requires Sub(a, q) && a != []
    ensures Sub(a[..|a| - 1], q)
    decreases |q|, 0
  {
    var a', q' := a[..|a| - 1], q[..|q| - 1];
    if a[|a| - 1].pid == q[|q| - 1].pid {
      if a' != [] && a'[|a'| - 1].pid == q[|q| - 1].pid {
        SubInit(a', q');
      }
    } else {
      SubInit(a, q');
      SubMore(a', q', q[|q| - 1]);
      assert q == q' + [q[|q| - 1]];
    }
  }

  lemma {:induction false} SubMore(a: seq<Proc>, q: seq<Proc>, p: Proc)
    requires Sub(a, q)
    ensures Sub(a, q + [p])
    decreases |q|, 1
  {
    assert (q + [p])[..|q|] == q;
    if a != [] && a[|a| - 1].pid == p.pid {
      SubInit(a, q);
    }
  }

  lemma {:induction false} SubWithout(q: seq<Proc>, k: nat)
    requires k < |q|
    ensures Sub(Without(q, k), q)
    decreases |q|
  {
    var q', p := q[..|q| - 1], q[|q| - 1];
    assert q == q' + [p];
    if k == |q'| {
      assert Without(q, k) == q';
      SubSelf(q');
      SubMore(q', q', p);
    } else {
      SubWithout(q', k);
      assert Without(q, k)[..|q| - 2] == Without(q', k);
    }
  }

  lemma {:induction false} SubSurvivors(q: seq<Proc>)
    ensures Sub(Survivors(q), q)
    decreases |q|
  {
    if q != [] {
      var q', p := q[..|q| - 1], q[|q| - 1];
      assert q == q' + [p];
      SubSurvivors(q');
      if Promotes(p) {
        assert Survivors(q) == Survivors(q');
        SubMore(Survivors(q'), q', p);
      } else {
        assert Survivors(q)[..|Survivors(q)| - 1] == Survivors(q');
      }
    }
  }

  lemma {:induction false} SubInOrder(a: seq<Proc>, q: seq<Proc>, stamps: map<nat, nat>, now: nat)
    requires Sub(a, q) && InOrder(q, stamps, now)
    ensures InOrder(a, stamps, now) && forall k :: 0 <= k < |a| ==> Stands(q, a[k].pid)
    decreases |q|
  {
    if a != [] {
      var q', p := q[..|q| - 1], q[|q| - 1];
      assert InOrder(q', stamps, stamps[p.pid]) && InOrder(q', stamps, now);
      if a[|a| - 1].pid == p.pid {
        SubInOrder(a[..|a| - 1], q', stamps, stamps[p.pid]);
      } else {
        SubInOrder(a, q', stamps, now);
      }
      forall k | 0 <= k < |a|
        ensures Stands(q, a[k].pid)
      {
        if k == |a| - 1 && a[k].pid == p.pid {
          assert q[|q| - 1].pid == a[k].pid;
        } else {
          assert Stands(q', a[k].pid);
          var i :| 0 <= i < |q'| && q'[i].pid == a[k].pid;
          assert q[i].pid == a[k].pid;
        }
      }
    }
  }

  // ----- One queue over one step -----

  ghost predicate DistinctPids(q: seq<Proc>)
  {
    forall j, k :: 0 <= j < k < |q| ==> q[j].pid != q[k].pid
  }

  /** Nobody of b was in q. */
  ghost predicate New(b: seq<Proc>, q: seq<Proc>)
  {
    forall k :: 0 <= k < |b| ==> !Stands(q, b[k].pid)
  }

  /** r is what is left of q, in order, and then newcomers. */
  ghost predicate Continues(q: seq<Proc>, r: seq<Proc>)
  {
    exists n: nat :: Parts(q, r, n)
  }

  ghost predicate Parts(q: seq<Proc>, r: seq<Proc>, n: nat)
  {
    n <= |r| && Sub(r[..n], q) && New(r[n..], q)
  }

  lemma Continued(q: seq<Proc>, a: seq<Proc>, b: seq<Proc>)
    requires Sub(a, q) && New(b, q)
    ensures Continues(q, a + b)
  {
    assert (a + b)[..|a|] == a && (a + b)[|a|..] == b;
    assert Parts(q, a + b, |a|);
  }

  lemma ContinuesSub(q: seq<Proc>, a: seq<Proc>)
    requires Sub(a, q)
    ensures Continues(q, a)
  {
    Continued(q, a, []);
    assert a + [] == a;
  }

  lemma IndexIs(r: seq<Proc>, k: nat)
    requires DistinctPids(r) && k < |r|
    ensures IndexOf(r, r[k].pid) == k
  {
  }

  lemma RestampedAt(q: seq<Proc>, r: seq<Proc>, stamps: map<nat, nat>, now: nat, n: nat, k: nat)
    requires n <= |r| && InOrder(r[..n], stamps, now) && DistinctPids(r) && New(r[n..], q) && k < |r|
    requires forall i :: 0 <= i < n ==> Stands(q, r[..n][i].pid)
    ensures var after := Restamp(q, r, stamps, now);
            r[k].pid in after && (k < n ==> r[k].pid in stamps) &&
            after[r[k].pid] == if k < n then stamps[r[k].pid] else now + k
  {
    IndexIs(r, k);
    assert r[k].pid in Restamp(q, r, stamps, now);
    if k < n {
      assert r[..n][k] == r[k];
    } else {
      assert r[n..][k - n] == r[k];
    }
  }

  lemma StaysInOrder(q: seq<Proc>, r: seq<Proc>, stamps: map<nat, nat>, now: nat)
    requires InOrder(q, stamps, now) && Continues(q, r) && DistinctPids(r)
    ensures InOrder(r, Restamp(q, r, stamps, now), now + |r|)
  {
    var n: nat :| Parts(q, r, n);
    SubInOrder(r[..n], q, stamps, now);
    hide Restamp, Stands, New;
    var after := Restamp(q, r, stamps, now);
    forall k | 0 <= k < |r|
      ensures r[k].pid in after && (k < n ==> r[k].pid in stamps && stamps[r[k].pid] < now)
      ensures after[r[k].pid] == if k < n then stamps[r[k].pid] else now + k
    {
      RestampedAt(q, r, stamps, now, n, k);
      if k < n {
        assert r[..n][k] == r[k];
      }
    }
    hide InOrder;
    OldThenNew(r, stamps, after, now, n);
  }

  lemma OldThenNew(r: seq<Proc>, stamps: map<nat, nat>, after: map<nat, nat>, now: nat, n: nat)
    requires n <= |r| && InOrder(r[..n], stamps, now)
    requires forall k :: 0 <= k < |r| ==>
               r[k].pid in after && (k < n ==> r[k].pid in stamps && stamps[r[k].pid] < now) &&
               after[r[k].pid] == if k < n then stamps[r[k].pid] else now + k
    ensures InOrder(r, after, now + |r|)
  {
    forall j, k | 0 <= j < k < |r|
      ensures after[r[j].pid] < after[r[k].pid]
    {
      if k < n {
        assert r[..n][j] == r[j] && r[..n][k] == r[k];
      }
    }
  }

  // ----- The queues over one step -----

  lemma {:induction false} CountTwice(q: seq<Proc>, j: nat, k: nat)
    requires j < k < |q| && q[j].pid == q[k].pid
    ensures Count(q, q[j].pid) >= 2
    decreases |q|
  {
    var q' := q[..|q| - 1];
    if k == |q'| {
      CountMember(q', j);
    } else {
      CountTwice(q', j, k);
    }
  }

  lemma PlacesOne(s: Sched, pid: nat)
    requires Inv(s)
    ensures Places(s, pid) <= 1
  {
  }

  lemma InvDistinct(s: Sched, i: nat)
    requires Inv(s) && i < 5
    ensures DistinctPids(s.queues[i])
  {
    var q := s.queues[i];
    forall j, k | 0 <= j < k < |q|
      ensures q[j].pid != q[k].pid
    {
      PlacesOne(s, q[j].pid);
      if q[j].pid == q[k].pid {
        CountTwice(q, j, k);
      }
    }
  }

  /** A process that stands elsewhere, or nowhere, is not in queue i. */
  lemma Elsewhere(s: Sched, i: nat, pid: nat)
    requires |s.queues| == 5 && i < 5 && Places(s, pid) <= 1
    requires Places(s, pid) == 0 || OnCpu(s, pid) || exists j: nat :: j < 5 && j != i && Stands(s.queues[j], pid)
    ensures !Stands(s.queues[i], pid)
  {
    if Stands(s.queues[i], pid) {
      var k :| 0 <= k < |s.queues[i]| && s.queues[i][k].pid == pid;
      CountMember(s.queues[i], k);
      if Places(s, pid) > 0 && !OnCpu(s, pid) {
        var j: nat :| j < 5 && j != i && Stands(s.queues[j], pid);
        var m :| 0 <= m < |s.queues[j]| && s.queues[j][m].pid == pid;
        CountMember(s.queues[j], m);
      }
    }
  }

  lemma AgeAllParts(queues: seq<seq<Proc>>)
    requires Levelled(queues)
    ensures var aged := AgeAll(queues);
            && |aged| == 5
            && aged[0] == queues[0] + Promoted(queues[1], 1)
            && aged[1] == Survivors(queues[1]) + Promoted(queues[2], 2)
            && aged[2] == Survivors(queues[2]) + Promoted(queues[3], 3)
            && aged[3] == Survivors(queues[3]) && aged[4] == queues[4]
  {
  }

  lemma {:induction false} PromotedFrom(q: seq<Proc>, level: nat, k: nat)
    requires 1 <= level <= MLFQ_LEVELS && AtLevel(q, level) && k < |Promoted(q, level)|
    ensures Stands(q, Promoted(q, level)[k].pid)
    decreases |q|
  {
    var q', p := q[..|q| - 1], q[|q| - 1];
    if k < |Promoted(q', level)| {
      PromotedFrom(q', level, k);
      assert Promoted(q, level)[k] == Promoted(q', level)[k];
      var i :| 0 <= i < |q'| && q'[i].pid == Promoted(q', level)[k].pid;
      assert q[i] == q'[i];
    } else {
      assert q[|q| - 1].pid == p.pid;
    }
  }

  /** Those who come up from the level below were not in queue i. */
  lemma PromotedNew(s: Sched, i: nat)
    requires Inv(s) && i < MLFQ_LEVELS - 1 && AtLevel(s.queues[i + 1], i + 1)
    ensures New(Promoted(s.queues[i + 1], i + 1), s.queues[i])
  {
    var up := Promoted(s.queues[i + 1], i + 1);
    forall k | 0 <= k < |up|
      ensures !Stands(s.queues[i], up[k].pid)
    {
      PromotedFrom(s.queues[i + 1], i + 1, k);
      PlacesOne(s, up[k].pid);
      Elsewhere(s, i, up[k].pid);
    }
  }

  /** What an ageing tick makes of one queue. */
  lemma LevelContinues(s: Sched, i: nat)
    requires Inv(s) && i < MLFQ_LEVELS - 1 && AtLevel(s.queues[i + 1], i + 1)
    ensures Continues(s.queues[i], s.queues[i] + Promoted(s.queues[i + 1], i + 1))
    ensures Continues(s.queues[i], Survivors(s.queues[i]) + Promoted(s.queues[i + 1], i + 1))
  {
    PromotedNew(s, i);
    hide Inv, Sub, New, Continues;
    SubSelf(s.queues[i]);
    SubSurvivors(s.queues[i]);
    Continued(s.queues[i], s.queues[i], Promoted(s.queues[i + 1], i + 1));
    Continued(s.queues[i], Survivors(s.queues[i]), Promoted(s.queues[i + 1], i + 1));
  }

  lemma AgeContinues(s: Sched, i: nat)
    requires Inv(s) && i < 5
    ensures Levelled(s.queues) && Continues(s.queues[i], AgeAll(s.queues)[i])
  {
    InvLevelled(s);
    AgeAllParts(s.queues);
    hide Inv, AgeAll, Sub, New, Continues, Survivors, Promoted, AtLevel;
    if i < 3 {
      LevelContinues(s, i);
    } else if i == 3 {
      SubSurvivors(s.queues[3]);
      ContinuesSub(s.queues[3], Survivors(s.queues[3]));
    } else {
      SameContinues(s.queues[4]);
    }
  }

  lemma NewOne(q: seq<Proc>, p: Proc)
    requires !Stands(q, p.pid)
    ensures New([p], q) && Continues(q, q + [p])
    ensures q != [] ==> Continues(q, q[1..] + [p])
    ensures Continues(q, [])
    ensures Continues(q, q) && (q != [] ==> Continues(q, q[1..]))
  {
    SubSelf(q);
    assert New([p], q);
    Continued(q, q, [p]);
    ContinuesSub(q, q);
    ContinuesSub(q, []);
    if q != [] {
      SubTail(q);
      Continued(q, q[1..], [p]);
      ContinuesSub(q, q[1..]);
    }
  }

  lemma SubTail(q: seq<Proc>)
    requires q != []
    ensures Sub(q[1..], q) && Continues(q, q[1..])
  {
    SubWithout(q, 0);
    assert Without(q, 0) == q[1..];
    ContinuesSub(q, q[1..]);
  }

  lemma SameContinues(q: seq<Proc>)
    ensures Continues(q, q)
  {
    SubSelf(q);
    ContinuesSub(q, q);
  }

  lemma PickContinues(s: Sched, i: nat)
    requires |s.queues| == 5 && i < 5
    ensures Continues(s.queues[i], Pick(s).queues[i])
  {
    SameContinues(s.queues[i]);
    var l := FirstReady(s.queues, 0);
    if l < MLFQ_LEVELS && l == i {
      SubTail(s.queues[l]);
    }
  }

  lemma ExpiryContinues(s: Sched, i: nat)
    requires Inv(s) && i < 5 && s.current.Busy? && s.current.proc.quantum == 1
    ensures Levelled(s.queues) && Continues(s.queues[i], Timer(s).queues[i])
  {
    InvLevelled(s);
    var p := Expired(s.current.proc.(quantum := 0));
    PlacesOne(s, p.pid);
    Elsewhere(s, i, p.pid);
    NewOne(s.queues[i], p);
    hide Inv, Continues, AgeAll, Places, Sub, New;
    TimerQueue(s, i);
  }

  /** The queues after an expiry: one gains the process that ran, and then one loses its head. */
  lemma TimerQueue(s: Sched, i: nat)
    requires Levelled(s.queues) && i < 5 && s.current.Busy? && s.current.proc.quantum == 1
    requires s.current.proc.priority < MLFQ_LEVELS
    ensures var p, q, r := Expired(s.current.proc.(quantum := 0)), s.queues[i], Timer(s).queues[i];
            r == q || r == q + [p] || r == [] || (q != [] && (r == q[1..] || r == q[1..] + [p]))
  {
    hide AgeAll;
    var p := Expired(s.current.proc.(quantum := 0));
    if i == p.priority && s.queues[i] != [] {
      assert (s.queues[i] + [p])[1..] == s.queues[i][1..] + [p];
    }
  }

  lemma TimerContinues(s: Sched, i: nat)
    requires Inv(s) && i < 5
    ensures Levelled(s.queues) && Continues(s.queues[i], Timer(s).queues[i])
  {
    InvLevelled(s);
    if s.current.Busy? && s.current.proc.quantum == 1 {
      ExpiryContinues(s, i);
    } else if s.current.Busy? {
      AgeContinues(s, i);
    } else {
      hide Inv, Continues;
      SameContinues(s.queues[i]);
      PickContinues(s, i);
    }
  }

  lemma BlockContinues(s: Sched, i: nat)
    requires Inv(s) && i < 5
    ensures Continues(s.queues[i], Pick(Block(s)).queues[i])
  {
    if s.current.Busy? {
      var p := s.current.proc.(state := Waiting);
      PlacesOne(s, p.pid);
      Elsewhere(s, i, p.pid);
      NewOne(s.queues[i], p);
      PickContinues(Block(s), i);
      hide Inv, Continues;
    } else {
      PickContinues(s, i);
    }
  }

  lemma UnblockContinues(s: Sched, y: nat, i: nat)
    requires Inv(s) && i < 5
    ensures forall p :: p in s.queues[WAITING_QUEUE] ==> p.priority < MLFQ_LEVELS
    ensures Continues(s.queues[i], Unblock(s, y).queues[i])
  {
    InvLevelled(s);
    SameContinues(s.queues[i]);
    var w := s.queues[WAITING_QUEUE];
    var k := IndexOf(w, y);
    if k < |w| {
      if i == WAITING_QUEUE {
        SubWithout(w, k);
        ContinuesSub(w, Without(w, k));
        hide Continues;
      } else {
        PlacesOne(s, y);
        assert Stands(w, y);
        Elsewhere(s, i, y);
        NewOne(s.queues[i], Woken(w[k]));
        hide Continues;
      }
    }
  }

  lemma EnqueueContinues(s: Sched, y: nat, i: nat)
    requires Inv(s) && i < 5 && Places(s, y) == 0
    ensures Continues(s.queues[i], Enqueue(s, Fresh(y)).queues[i])
  {
    Elsewhere(s, i, y);
    NewOne(s.queues[i], Fresh(y));
  }

  /** Over every step each queue keeps its order and takes newcomers at its tail. */
  lemma StepContinues(s: Sched, e: Event, i: nat)
    requires Inv(s) && Enabled(s, e) && i < 5
    ensures |Step(s, e).queues| == 5 && Continues(s.queues[i], Step(s, e).queues[i])
  {
    StepInv(s, e);
    hide Continues;
    match e
    case TimerEvent => TimerContinues(s, i);
    case EnqueueEvent(y) => EnqueueContinues(s, y, i);
    case BlockEvent => BlockContinues(s, i);
    case UnblockEvent(y) => UnblockContinues(s, y, i);
  }

  lemma QueueOrdered(s: Sched, e: Event, i: nat, stamps: map<nat, nat>, now: nat)
    requires Inv(s) && |s.queues| == 5 && Enabled(s, e) && i < 5 && InOrder(s.queues[i], stamps, now)
    ensures Inv(Step(s, e)) && |Step(s, e).queues| == 5
    ensures InOrder(Step(s, e).queues[i], Restamp(s.queues[i], Step(s, e).queues[i], stamps, now), Clock(s, e, now))
  {
    hide Continues, Step, Restamp, InOrder, Enabled, DistinctPids, Inv, Population;
    StepContinues(s, e, i);
    StepInv(s, e);
    var t := Step(s, e);
    InvDistinct(t, i);
    StaysInOrder(s.queues[i], t.queues[i], stamps, now);
    QueueBound(t, i);
    Later(t.queues[i], Restamp(s.queues[i], t.queues[i], stamps, now), now + |t.queues[i]|, Clock(s, e, now));
  }

  lemma QueueBound(s: Sched, i: nat)
    requires |s.queues| == 5 && i < 5
    ensures |s.queues[i]| <= Population(s)
  {
  }

  lemma StepOrdered(s: Sched, e: Event, stamps: Stamps, now: nat)
    requires Inv(s) && Enabled(s, e) && Ordered(s, stamps, now)
    ensures Inv(Step(s, e)) && Ordered(Step(s, e), Stamped(s, e, stamps, now), Clock(s, e, now))
  {
    StepInv(s, e);
    hide Step, Restamp, InOrder, Enabled, Clock, Inv;
    forall i | 0 <= i < 5
      ensures InOrder(Step(s, e).queues[i], Stamped(s, e, stamps, now)[i], Clock(s, e, now))
    {
      QueueOrdered(s, e, i, stamps[i], now);
    }
  }

  lemma Later(q: seq<Proc>, stamps: map<nat, nat>, now: nat, later: nat)
    requires InOrder(q, stamps, now) && now <= later
    ensures InOrder(q, stamps, later)
  {
  }

  // ----- Runs -----

  /** Over every run the stamps grow from head to tail in every queue. */
  lemma {:induction false} RunOrdered(s: Sched, es: seq<Event>, stamps: Stamps, now: nat)
    requires Inv(s) && Runs(s, es) && Ordered(s, stamps, now)
    ensures Inv(Exec(s, es))
    ensures var (after, later) := RunStamps(s, es, stamps, now); Ordered(Exec(s, es), after, later)
    decreases |es|
  {
    if es != [] {
      StepOrdered(s, es[0], stamps, now);
      RunOrdered(Step(s, es[0]), es[1..], Stamped(s, es[0], stamps, now), Clock(s, es[0], now));
    }
  }

  const NO_STAMPS: Stamps := [map[], map[], map[], map[], map[]]

  /** The step ends with a pick. */
  predicate Picks(s: Sched, e: Event)
  {
    e.BlockEvent? || (e.TimerEvent? && (s.current.Nobody? || (s.current.Busy? && s.current.proc.quantum == 1)))
  }

  /** The scheduler at the moment of the pick: who leaves the CPU is back in a queue. */
  function AtPick(s: Sched, e: Event): Sched
    requires Levelled(s.queues) && (s.current.Busy? ==> s.current.proc.priority < MLFQ_LEVELS)
  {
    if e.BlockEvent? then Block(s) else Tick(s)
  }

  /** The ready queues at the pick are those of s, but for one process that came back to its tail. */
  ghost predicate BackAt(s: Sched, u: Sched, p: Proc)
  {
    && |s.queues| == |u.queues| == 5
    && forall i :: 0 <= i < MLFQ_LEVELS ==>
         QueueOk(s.queues[i], i) &&
         (u.queues[i] == s.queues[i] || (u.queues[i] == s.queues[i] + [p] && p.priority == i))
  }

  lemma PickParts(s: Sched, e: Event) returns (p: Proc)
    requires Inv(s) && Picks(s, e)
    ensures Levelled(s.queues) && Step(s, e) == Pick(AtPick(s, e)) && BackAt(s, AtPick(s, e), p)
  {
    InvLevelled(s);
    p := if s.current.Busy? then Expired(s.current.proc.(quantum := 0)) else s.idle;
  }

  lemma HeadAtPick(s: Sched, u: Sched, p: Proc, i: nat)
    requires BackAt(s, u, p) && i < MLFQ_LEVELS && s.queues[i] != []
    ensures Pick(u).current.Busy?
    ensures var x := Pick(u).current.proc;
            x.priority < i || (x.priority == i && x.pid == s.queues[i][0].pid)
  {
    var l := FirstReady(u.queues, 0);
    assert u.queues[i] != [];
    assert l <= i && QueueOk(s.queues[l], l);
    assert u.queues[l][0].priority == l;
  }

  /**
    Whoever a step dispatches is ahead of every other ready process y: of a more urgent level, or
    of the same level and there before it.
   */
  lemma DispatchesEldest(s: Sched, e: Event, stamps: Stamps, now: nat, y: nat, i: nat, k: nat)
    requires Inv(s) && Picks(s, e) && Enabled(s, e) && Ordered(s, stamps, now) && At(s, y, i, k)
    ensures Step(s, e).current.Busy?
    ensures AheadOf(s, Step(s, e).current.proc, stamps, y, i)
  {
    var p := PickParts(s, e);
    assert InOrder(s.queues[i], stamps[i], now);
    hide Inv, Ordered, Step, AtPick, BackAt, Pick;
    HeadAtPick(s, AtPick(s, e), p, i);
  }

  /** Process p is y, or of a more urgent level, or was first at y's level with an earlier stamp. */
  ghost predicate AheadOf(s: Sched, p: Proc, stamps: Stamps, y: nat, i: nat)
    requires |s.queues| == 5
  {
    p.pid == y || p.priority < i ||
    (p.priority == i && At(s, p.pid, i, 0) && p.pid in stamps[i] && y in stamps[i] && stamps[i][p.pid] < stamps[i][y])
  }

  lemma InitOrdered(idle: Proc)
    ensures Inv(Init(idle)) && Ordered(Init(idle), NO_STAMPS, 0)
  {
    InitInv(idle);
  }

  /**
    First come, first served: after any run from the start, a step that picks dispatches the process
    that is least by level and, within its level, by the stamp of its arrival there.
   */
  lemma PickIsEldest(idle: Proc, es: seq<Event>, e: Event, y: nat, i: nat, k: nat)
    requires Inv(Init(idle)) && Runs(Init(idle), es)
    ensures Inv(Exec(Init(idle), es))
    ensures var s, stamps := Exec(Init(idle), es), RunStamps(Init(idle), es, NO_STAMPS, 0).0;
            Picks(s, e) && Enabled(s, e) && At(s, y, i, k) ==>
              Step(s, e).current.Busy? && AheadOf(s, Step(s, e).current.proc, stamps, y, i)
  {
    InitOrdered(idle);
    RunOrdered(Init(idle), es, NO_STAMPS, 0);
    var s := Exec(Init(idle), es);
    var (stamps, now) := RunStamps(Init(idle), es, NO_STAMPS, 0);
    hide Ordered, Init, RunStamps, Exec, Step, At, Runs, Picks, Enabled, AheadOf;
    if Picks(s, e) && Enabled(s, e) && At(s, y, i, k) {
      DispatchesEldest(s, e, stamps, now, y, i, k);
    }
  }
}
