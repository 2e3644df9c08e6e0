/** What every step of the scheduler keeps: membership, conservation and the numeric bounds. */
module SchedInvariant {
  import opened SchedSpec

  // ----- Counting -----

  lemma {:induction false} CountAppend(q: seq<Proc>, r: seq<Proc>, pid: nat)
    ensures Count(q + r, pid) == Count(q, pid) + Count(r, pid)
  {
    if r == [] {
      assert q + r == q;
    } else {
      CountAppend(q, r[..|r| - 1], pid);
      assert (q + r)[..|q + r| - 1] == q + r[..|r| - 1];
    }
  }

  lemma CountOne(p: Proc, pid: nat)
    ensures Count([p], pid) == if p.pid == pid then 1 else 0
  {
  }

  lemma CountPush(q: seq<Proc>, p: Proc, pid: nat)
    ensures Count(q + [p], pid) == Count(q, pid) + if p.pid == pid then 1 else 0
  {
    CountAppend(q, [p], pid);
    CountOne(p, pid);
  }

  lemma CountWithout(q: seq<Proc>, k: nat, pid: nat)
    requires k < |q|
    ensures Count(q, pid) == Count(Without(q, k), pid) + if q[k].pid == pid then 1 else 0
  {
    CountAppend(q[..k], q[k..], pid);
    assert q == q[..k] + q[k..];
    CountAppend([q[k]], q[k + 1..], pid);
    assert q[k..] == [q[k]] + q[k + 1..];
    CountOne(q[k], pid);
    CountAppend(q[..k], q[k + 1..], pid);
  }

  lemma {:induction false} CountMember(q: seq<Proc>, k: nat)
    requires k < |q|
    ensures Count(q, q[k].pid) >= 1
  {
    CountWithout(q, k, q[k].pid);
  }

  /** An ageing walk splits a queue: nobody is lost, nobody is doubled. */
  lemma {:induction false} CountSplit(q: seq<Proc>, level: nat, pid: nat)
    requires 1 <= level <= MLFQ_LEVELS && AtLevel(q, level)
    ensures Count(Survivors(q), pid) + Count(Promoted(q, level), pid) == Count(q, pid)
    ensures |Survivors(q)| + |Promoted(q, level)| == |q|
  {
    if q != [] {
      var init, p := q[..|q| - 1], q[|q| - 1];
      CountSplit(init, level, pid);
      if Promotes(p) {
        CountPush(Promoted(init, level), Promotion(p), pid);
        assert Survivors(q) == Survivors(init);
      } else {
        CountPush(Survivors(init), Older(p), pid);
        assert Promoted(q, level) == Promoted(init, level);
      }
    }
  }

  function CountAll(queues: seq<seq<Proc>>, pid: nat): nat
    requires |queues| == 5
  {
    Count(queues[0], pid) + Count(queues[1], pid) + Count(queues[2], pid) +
    Count(queues[3], pid) + Count(queues[4], pid)
  }

  lemma CountAge(queues: seq<seq<Proc>>, pid: nat)
    requires Levelled(queues)
    ensures CountAll(AgeAll(queues), pid) == CountAll(queues, pid)
  {
    CountAgeLevel(queues, 1, pid);
    CountAgeLevel(AgeLevel(queues, 1), 2, pid);
    CountAgeLevel(AgeLevel(AgeLevel(queues, 1), 2), 3, pid);
  }

  lemma CountAgeLevel(queues: seq<seq<Proc>>, i: nat, pid: nat)
    requires 1 <= i < MLFQ_LEVELS && Levelled(queues)
    ensures CountAll(AgeLevel(queues, i), pid) == CountAll(queues, pid)
  {
    CountSplit(queues[i], i, pid);
    CountAppend(queues[i - 1], Promoted(queues[i], i), pid);
  }

  // ----- The numeric bounds -----

  lemma {:induction false} SurvivorsOk(q: seq<Proc>, i: nat)
    requires 1 <= i < MLFQ_LEVELS && QueueOk(q, i)
    ensures QueueOk(Survivors(q), i)
  {
    if q != [] {
      SurvivorsOk(q[..|q| - 1], i);
    }
  }

  lemma {:induction false} PromotedOk(q: seq<Proc>, i: nat)
    requires 1 <= i < MLFQ_LEVELS && QueueOk(q, i)
    ensures AtLevel(q, i) && QueueOk(Promoted(q, i), i - 1)
  {
    if q != [] {
      PromotedOk(q[..|q| - 1], i);
    }
  }

  lemma AgeLevelOk(queues: seq<seq<Proc>>, i: nat)
    requires 1 <= i < MLFQ_LEVELS && |queues| == 5
    requires forall j :: 0 <= j < 5 ==> QueueOk(queues[j], j)
    ensures Levelled(queues)
    ensures forall j :: 0 <= j < 5 ==> QueueOk(AgeLevel(queues, i)[j], j)
  {
    SurvivorsOk(queues[i], i);
    PromotedOk(queues[i], i);
  }

  lemma InvLevelled(s: Sched)
    requires Inv(s)
    ensures Levelled(s.queues)
    ensures forall p :: p in s.queues[WAITING_QUEUE] ==> p.priority < MLFQ_LEVELS
  {
    forall i | 0 <= i < MLFQ_LEVELS
      ensures AtLevel(s.queues[i], i)
    {
      assert QueueOk(s.queues[i], i);
    }
    assert QueueOk(s.queues[WAITING_QUEUE], WAITING_QUEUE);
  }

  /** The part of the invariant that speaks of one place at a time. */
  ghost predicate Sound(s: Sched)
  {
    && |s.queues| == 5
    && (forall i :: 0 <= i < 5 ==> QueueOk(s.queues[i], i))
    && (s.current.Busy? ==> FitsCpu(s.current.proc))
  }

  lemma PlacesPush(s: Sched, i: nat, p: Proc, pid: nat)
    requires |s.queues| == 5 && i < 5
    ensures Places(Push(s, i, p), pid) == Places(s, pid) + if p.pid == pid then 1 else 0
  {
    CountPush(s.queues[i], p, pid);
  }

  lemma PickKeeps(s: Sched, pid: nat)
    requires Sound(s) && s.current.Nobody?
    ensures Sound(Pick(s)) && Places(Pick(s), pid) == Places(s, pid)
  {
    var l := FirstReady(s.queues, 0);
    if l < MLFQ_LEVELS {
      var q := s.queues[l];
      assert Without(q, 0) == q[1..];
      assert Fits(q[0], l) by { assert QueueOk(q, l); }
      RemoveKeeps(s, l, 0, pid);
      hide QueueOk, Count, Without;
    }
  }

  lemma TickKeeps(s: Sched, pid: nat)
    requires Inv(s)
    ensures Sound(Tick(s)) && Places(Tick(s), pid) == Places(s, pid)
  {
    InvLevelled(s);
    if s.current.Busy? {
      var p := s.current.proc;
      var p' := p.(quantum := Dec32(p.quantum));
      if p'.quantum == 0 {
        PlacesPush(s, Expired(p').priority, Expired(p'), pid);
      } else {
        CountAge(s.queues, pid);
        AgeLevelOk(s.queues, 1);
        AgeLevelOk(AgeLevel(s.queues, 1), 2);
        AgeLevelOk(AgeLevel(AgeLevel(s.queues, 1), 2), 3);
      }
    }
  }

  lemma TimerKeeps(s: Sched, pid: nat)
    requires Inv(s)
    ensures Sound(Timer(s)) && Places(Timer(s), pid) == Places(s, pid)
  {
    TickKeeps(s, pid);
    if Tick(s).current.Nobody? {
      PickKeeps(Tick(s), pid);
    }
  }

  /** Blocking alone makes the process stand in two places; the pick that follows repairs it. */
  lemma BlockPlaces(s: Sched, pid: nat)
    requires Inv(s)
    ensures Places(Block(s), pid) ==
            Places(s, pid) + if s.current.Busy? && s.current.proc.pid == pid then 1 else 0
    ensures s.current.Busy? ==>
              var p := s.current.proc.(state := Waiting);
              Block(s) == s.(queues := s.queues[4 := s.queues[4] + [p]], current := Busy(p))
  {
    if s.current.Busy? {
      PlacesPush(s, WAITING_QUEUE, s.current.proc.(state := Waiting), pid);
    }
  }

  lemma BlockPickKeeps(s: Sched, pid: nat)
    requires Inv(s)
    ensures Sound(Pick(Block(s))) && Places(Pick(Block(s)), pid) == Places(s, pid)
  {
    var t := Block(s).(current := Nobody);
    assert Pick(Block(s)) == Pick(t);
    if s.current.Busy? {
      var p := s.current.proc.(state := Waiting);
      PushKeeps(s.(current := Nobody), WAITING_QUEUE, p, pid);
    }
    PickKeeps(t, pid);
  }

  lemma RemoveKeeps(s: Sched, i: nat, k: nat, pid: nat)
    requires Sound(s) && i < 5 && k < |s.queues[i]|
    ensures var t := s.(queues := s.queues[i := Without(s.queues[i], k)]);
            && Sound(t)
            && Places(s, pid) == Places(t, pid) + if s.queues[i][k].pid == pid then 1 else 0
  {
    var q := s.queues[i];
    CountWithout(q, k, pid);
    forall j | 0 <= j < |Without(q, k)|
      ensures Fits(Without(q, k)[j], i)
    {
      assert Without(q, k)[j] == q[if j < k then j else j + 1];
    }
  }

  lemma PushKeeps(s: Sched, i: nat, p: Proc, pid: nat)
    requires Sound(s) && i < 5 && Fits(p, i)
    ensures Sound(Push(s, i, p))
    ensures Places(Push(s, i, p), pid) == Places(s, pid) + if p.pid == pid then 1 else 0
  {
    PlacesPush(s, i, p, pid);
    hide Places, Fits, FitsCpu;
  }

  lemma UnblockKeeps(s: Sched, pid: nat, x: nat)
    requires Inv(s)
    ensures Sound(Unblock(s, x)) && Places(Unblock(s, x), pid) == Places(s, pid)
  {
    var w := s.queues[WAITING_QUEUE];
    var k := IndexOf(w, x);
    if k < |w| {
      assert Fits(w[k], WAITING_QUEUE);
      var t := s.(queues := s.queues[WAITING_QUEUE := Without(w, k)]);
      RemoveKeeps(s, WAITING_QUEUE, k, pid);
      PushKeeps(t, w[k].priority, Woken(w[k]), pid);
    }
  }

  lemma EnqueueKeeps(s: Sched, pid: nat, x: nat)
    requires Inv(s)
    ensures Sound(Enqueue(s, Fresh(x)))
    ensures Places(Enqueue(s, Fresh(x)), pid) == Places(s, pid) + if pid == x then 1 else 0
  {
    PlacesPush(s, 0, Fresh(x), pid);
  }

  /**
    Conservation: no step loses or doubles a process, and only an enqueued new process enters.
   */
  lemma StepConserves(s: Sched, e: Event, pid: nat)
    requires Inv(s) && Enabled(s, e)
    ensures Sound(Step(s, e))
    ensures Places(Step(s, e), pid) == Places(s, pid) + if e == EnqueueEvent(pid) then 1 else 0
  {
    match e
    case TimerEvent => TimerKeeps(s, pid);
    case EnqueueEvent(x) => EnqueueKeeps(s, pid, x);
    case BlockEvent => BlockPickKeeps(s, pid);
    case UnblockEvent(x) => UnblockKeeps(s, pid, x);
  }

  /** Every step keeps the membership, state and arithmetic invariant. */
  lemma StepInv(s: Sched, e: Event)
    requires Inv(s) && Enabled(s, e)
    ensures Inv(Step(s, e)) && Step(s, e).idle.pid == s.idle.pid
  {
    forall pid
      ensures Sound(Step(s, e))
      ensures Places(Step(s, e), pid) == Places(s, pid) + if e == EnqueueEvent(pid) then 1 else 0
    {
      StepConserves(s, e, pid);
    }
  }

  // ----- Runs -----

  /** The states of a run satisfy the preconditions of the events taken in them. */
  ghost predicate Runs(s: Sched, es: seq<Event>)
    requires Inv(s)
    decreases |es|
  {
    es != [] ==>
      Enabled(s, es[0]) &&
      (StepInv(s, es[0]); Runs(Step(s, es[0]), es[1..]))
  }

  ghost function Exec(s: Sched, es: seq<Event>): Sched
    requires Inv(s) && Runs(s, es)
    decreases |es|
  {
    if es == [] then s
    else StepInv(s, es[0]); Exec(Step(s, es[0]), es[1..])
  }

  function Arrivals(es: seq<Event>, pid: nat): nat
  {
    if es == [] then 0
    else (if es[0] == EnqueueEvent(pid) then 1 else 0) + Arrivals(es[1..], pid)
  }

  /** The initial scheduler satisfies the invariant. */
  lemma InitInv(idle: Proc)
    ensures Inv(Init(idle))
  {
  }

  /**
    Over a whole run every process stands in exactly one place if it was there at the start or has
    been enqueued since, and nowhere otherwise; pids are never enqueued twice.
   */
  lemma {:induction false} RunConserves(s: Sched, es: seq<Event>, pid: nat)
    requires Inv(s) && Runs(s, es)
    ensures Inv(Exec(s, es))
    ensures Places(Exec(s, es), pid) == Places(s, pid) + Arrivals(es, pid) <= 1
    decreases |es|
  {
    if es != [] {
      StepInv(s, es[0]);
      StepConserves(s, es[0], pid);
      RunConserves(Step(s, es[0]), es[1..], pid);
    }
  }

  /**
    Blocking as written, without the pick, keeps the invariant exactly when there is no process to
    block.
   */
  lemma BlockAloneInv(s: Sched)
    requires Inv(s)
    ensures Inv(Block(s)) <==> !s.current.Busy?
  {
    if s.current.Busy? {
      BlockPlaces(s, s.current.proc.pid);
    }
  }

  lemma BlockWaits(s: Sched)
    requires Inv(s) && s.current.Busy?
    ensures Levelled(Block(s).queues) && Block(s).current == Busy(s.current.proc.(state := Waiting))
    ensures Count(Block(s).queues[WAITING_QUEUE], s.current.proc.pid) == 1
    ensures Places(Block(s), s.current.proc.pid) == 2
  {
    InvLevelled(s);
    var p := s.current.proc;
    BlockPlaces(s, p.pid);
    CountPush(s.queues[WAITING_QUEUE], p.(state := Waiting), p.pid);
    assert Places(s, p.pid) <= 1;
  }

  lemma ExpireKeeps(s: Sched, p: Proc)
    requires Levelled(s.queues) && s.current == Busy(p) && p.quantum == 1 && p.priority < MLFQ_LEVELS
    ensures Tick(s).current.Nobody? && |Tick(s).queues| == 5
    ensures Tick(s).queues[WAITING_QUEUE] == s.queues[WAITING_QUEUE] && Places(Tick(s), p.pid) == Places(s, p.pid)
  {
    var e := Expired(p.(quantum := 0));
    PlacesPush(s, e.priority, e, p.pid);
    hide Count;
  }

  lemma AgeKeeps(s: Sched, p: Proc)
    requires Levelled(s.queues) && s.current == Busy(p) && p.quantum > 1 && p.priority < MLFQ_LEVELS
    ensures Tick(s).current == Busy(p.(quantum := p.quantum - 1)) && |Tick(s).queues| == 5
    ensures Tick(s).queues[WAITING_QUEUE] == s.queues[WAITING_QUEUE] && Places(Tick(s), p.pid) == Places(s, p.pid)
  {
    CountAge(s.queues, p.pid);
    hide Count;
  }

  /**
    A tick between the block and the pick: the blocked process waits and stands in a second place too,
    on the CPU as long as its quantum lasts, and in a ready queue when the tick uses it up.
   */
  lemma TickAfterBlock(s: Sched)
    requires Inv(s) && s.current.Busy?
    ensures Levelled(Block(s).queues) && Block(s).current.Busy?
    ensures var t, p := Tick(Block(s)), s.current.proc;
            && |t.queues| == 5 && Count(t.queues[WAITING_QUEUE], p.pid) == 1 && Places(t, p.pid) == 2
            && (p.quantum == 1 <==> t.current.Nobody?)
            && (t.current.Nobody? || (t.current.Busy? && t.current.proc.pid == p.pid))
  {
    BlockWaits(s);
    RunningTicks(s);
    hide Inv, Count, Places, Block, Tick;
    var p := s.current.proc.(state := Waiting);
    if p.quantum == 1 {
      ExpireKeeps(Block(s), p);
    } else {
      AgeKeeps(Block(s), p);
    }
  }

  lemma RunningTicks(s: Sched)
    requires Inv(s) && s.current.Busy?
    ensures s.current.proc.quantum >= 1 && s.current.proc.priority < MLFQ_LEVELS
  {
  }
}
