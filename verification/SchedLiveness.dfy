/** Bounded waiting: how many timer ticks a ready process waits before it is dispatched. */
module SchedLiveness {
  import opened SchedSpec
  import opened SchedInvariant

  /** Process x is the k-th in priority queue l. */
  predicate At(s: Sched, x: nat, l: nat, k: nat)
    requires |s.queues| == 5
  {
    l < MLFQ_LEVELS && k < |s.queues[l]| && s.queues[l][k].pid == x
  }

  predicate OnCpu(s: Sched, x: nat) { s.current.Busy? && s.current.proc.pid == x }

  // ----- Where the ageing pass takes a process -----

  lemma {:induction false} SurvivorAt(q: seq<Proc>, k: nat)
    requires k < |q|
    ensures |Survivors(q[..k])| <= k
    ensures !Promotes(q[k]) ==>
              var j := |Survivors(q[..k])|;
              j < |Survivors(q)| && Survivors(q)[j] == Older(q[k])
  {
    var init := q[..|q| - 1];
    if k == |init| {
      assert q[..k] == init;
    } else {
      SurvivorAt(init, k);
      assert init[..k] == q[..k];
    }
  }

  lemma {:induction false} PromotedAt(q: seq<Proc>, level: nat, k: nat)
    requires 1 <= level <= MLFQ_LEVELS && AtLevel(q, level) && k < |q|
    ensures Promotes(q[k]) ==>
              var j := |Promoted(q[..k], level)|;
              j < |Promoted(q, level)| && Promoted(q, level)[j] == Promotion(q[k])
  {
    var init := q[..|q| - 1];
    if k == |init| {
      assert q[..k] == init;
    } else {
      PromotedAt(init, level, k);
      assert init[..k] == q[..k];
    }
  }

  /**
    Where the ageing pass takes the process at index k of level l: it stays behind those of its queue
    that stay too, or goes one level up behind everybody there and behind those promoted before it.
   */
  function AgedLevel(queues: seq<seq<Proc>>, l: nat, k: nat): nat
    requires l < MLFQ_LEVELS && l < |queues| && k < |queues[l]|
  {
    if l > 0 && Promotes(queues[l][k]) then l - 1 else l
  }

  function AgedIndex(queues: seq<seq<Proc>>, l: nat, k: nat): nat
    requires Levelled(queues) && l < MLFQ_LEVELS && k < |queues[l]|
  {
    if l == 0 then k
    else if !Promotes(queues[l][k]) then |Survivors(queues[l][..k])|
    else (if l == 1 then |queues[0]| else |Survivors(queues[l - 1])|) + |Promoted(queues[l][..k], l)|
  }

  /**
    The ageing pass ages every process at levels 1 to 3 exactly once: it stays in its queue one tick
    older, or it moves up exactly one level; level 0 keeps its order.
   */
  lemma AgeMoves(queues: seq<seq<Proc>>, l: nat, k: nat)
    requires Levelled(queues) && l < MLFQ_LEVELS && k < |queues[l]|
    ensures var aged, l', k', p := AgeAll(queues), AgedLevel(queues, l, k), AgedIndex(queues, l, k), queues[l][k];
            k' < |aged[l']| &&
            aged[l'][k'] == if l == 0 then p else if Promotes(p) then Promotion(p) else Older(p)
  {
    var q1 := AgeLevel(queues, 1);
    var q2 := AgeLevel(q1, 2);
    // passes below l leave queue l alone, the pass over l + 1 only appends to it
    if l == 1 {
      AgeLevelMoves(queues, 1, k);
    } else if l == 2 {
      AgeLevelMoves(q1, 2, k);
    } else if l == 3 {
      AgeLevelMoves(q2, 3, k);
    }
  }

  lemma AgeLevelMoves(queues: seq<seq<Proc>>, l: nat, k: nat)
    requires 1 <= l < MLFQ_LEVELS && Levelled(queues) && k < |queues[l]|
    ensures var aged, p := AgeLevel(queues, l), queues[l][k];
            if Promotes(p) then
              var j := |queues[l - 1]| + |Promoted(queues[l][..k], l)|;
              j < |aged[l - 1]| && aged[l - 1][j] == Promotion(p)
            else
              var j := |Survivors(queues[l][..k])|;
              j < |aged[l]| && aged[l][j] == Older(p)
  {
    SurvivorAt(queues[l], k);
    PromotedAt(queues[l], l, k);
  }

  lemma {:induction false} PrefixesGrow(q: seq<Proc>, level: nat, j: nat, k: nat)
    requires 1 <= level <= MLFQ_LEVELS && AtLevel(q, level) && j < k <= |q|
    ensures |Survivors(q[..j])| + (if Promotes(q[j]) then 0 else 1) <= |Survivors(q[..k])|
    ensures |Promoted(q[..j], level)| + (if Promotes(q[j]) then 1 else 0) <= |Promoted(q[..k], level)|
    decreases k
  {
    assert q[..k][..k - 1] == q[..k - 1];
    if j < k - 1 {
      PrefixesGrow(q, level, j, k - 1);
    }
  }

  /** Processes of one queue that stay keep their order, and so do those that move up together. */
  lemma AgeKeepsOrder(queues: seq<seq<Proc>>, l: nat, j: nat, k: nat)
    requires Levelled(queues) && l < MLFQ_LEVELS && j < k < |queues[l]|
    requires AgedLevel(queues, l, j) == AgedLevel(queues, l, k)
    ensures AgedIndex(queues, l, j) < AgedIndex(queues, l, k)
  {
    if l > 0 {
      PrefixesGrow(queues[l], l, j, k);
    }
  }

  // ----- The ranking -----

  /** Ageing ticks that a process of age a at level l needs before it stands at level 0. */
  function Remaining(l: nat, a: nat): nat
  {
    if l == 0 || a >= AGE_TICK_MAX then 0 else AGE_TICK_MAX * (l - 1) + (AGE_TICK_MAX - a)
  }

  /** Quantum expiries that can fall into a ageing ticks when q ticks of quantum are left. */
  function Expiries(a: nat, q: nat): nat
  {
    var c := if q < 40 then q else 40;
    if a < c then 0 else 1 + (a - c) / 39
  }

  /** Timer ticks within which x, k-th at level l, is dispatched or stands at level 0. */
  function Rank(a: nat, q: nat): nat { a + Expiries(a, q) }

  /** The rank of the k-th process in queue l, its levels above 0 and the front of level 0 apart. */
  function Climb(s: Sched, l: nat, k: nat): nat
    requires l < |s.queues| && k < |s.queues[l]| && s.current.Busy?
  {
    Rank(Remaining(l, s.queues[l][k].age), s.current.proc.quantum)
  }

  function Front(s: Sched, k: nat): nat
    requires s.current.Busy?
  {
    s.current.proc.quantum + 40 * k
  }

  lemma ExpiriesBound(a: nat, q: nat)
    requires q >= 1
    ensures Expiries(a, q) <= 1 + a / 39
  {
  }

  /** An ageing tick lowers the rank by one, an expiry too, and a full quantum never raises it. */
  lemma RankDrops(a: nat, q: nat, q': nat)
    requires q >= 1 && q' >= 40
    ensures a >= 1 && q >= 2 ==> Rank(a - 1, q - 1) < Rank(a, q)
    ensures a >= 1 && q == 1 ==> Rank(a, q') < Rank(a, q)
    ensures Rank(a, q') <= Rank(a, q)
  {
  }

  // ----- One step -----

  lemma PickMoves(s: Sched, x: nat, l: nat, k: nat) returns (k': nat)
    requires Sound(s) && At(s, x, l, k) && !OnCpu(Pick(s), x)
    ensures Pick(s).current.Busy? && Pick(s).current.proc.quantum >= 40
    ensures At(Pick(s), x, l, k') && Pick(s).queues[l][k'] == s.queues[l][k] && k' <= k
    ensures l == 0 ==> k' == k - 1 && Pick(s).current.proc.quantum == 40
  {
    var f := FirstReady(s.queues, 0);
    assert f <= l;
    assert QueueOk(s.queues[f], f);
    assert Fits(s.queues[f][0], f);
    k' := if f == l then k - 1 else k;
  }

  /** The last tick of a quantum: the current process is put back and the next one picked. */
  lemma ExpiryMoves(s: Sched, x: nat, l: nat, k: nat) returns (k': nat)
    requires Inv(s) && s.current.Busy? && s.current.proc.quantum == 1
    requires At(s, x, l, k) && !OnCpu(Timer(s), x)
    ensures Timer(s).current.Busy? && Timer(s).current.proc.quantum >= 40
    ensures At(Timer(s), x, l, k') && Timer(s).queues[l][k'] == s.queues[l][k]
    ensures l == 0 ==> k' == k - 1 && Timer(s).current.proc.quantum == 40
  {
    TickKeeps(s, x);
    var t := Tick(s);
    assert Timer(s) == Pick(t);
    assert At(t, x, l, k) && t.queues[l][k] == s.queues[l][k];
    k' := PickMoves(t, x, l, k);
  }

  /** Any other tick of a running process: everybody above level 0 comes one ageing tick closer. */
  lemma AgeingMoves(s: Sched, x: nat, l: nat, k: nat) returns (l': nat, k': nat)
    requires Inv(s) && s.current.Busy? && s.current.proc.quantum >= 2
    requires At(s, x, l, k)
    ensures Timer(s).current.Busy? && Timer(s).current.proc.quantum == s.current.proc.quantum - 1
    ensures At(Timer(s), x, l', k')
    ensures l == 0 ==> l' == 0 && k' == k
    ensures l > 0 ==>
              Remaining(l', Timer(s).queues[l'][k'].age) == Remaining(l, s.queues[l][k].age) - 1
  {
    InvLevelled(s);
    assert Fits(s.queues[l][k], l) by { assert QueueOk(s.queues[l], l); }
    AgeMoves(s.queues, l, k);
    l', k' := AgedLevel(s.queues, l, k), AgedIndex(s.queues, l, k);
    assert Timer(s).queues == AgeAll(s.queues);
  }

  lemma TimerMoves(s: Sched, x: nat, l: nat, k: nat) returns (l': nat, k': nat)
    requires Inv(s) && s.current.Busy? && At(s, x, l, k) && !OnCpu(Timer(s), x)
    ensures At(Timer(s), x, l', k') && Timer(s).current.Busy?
    ensures l == 0 ==> l' == 0 && Front(Timer(s), k') < Front(s, k)
    ensures l > 0 ==> Climb(Timer(s), l', k') < Climb(s, l, k)
  {
    var q := s.current.proc.quantum;
    var a := Remaining(l, s.queues[l][k].age);
    assert Fits(s.queues[l][k], l) by { assert QueueOk(s.queues[l], l); }
    if q == 1 {
      l' := l;
      k' := ExpiryMoves(s, x, l, k);
      RankDrops(a, q, Timer(s).current.proc.quantum);
    } else {
      l', k' := AgeingMoves(s, x, l, k);
      RankDrops(a, q, 40);
    }
  }

  lemma BlockMoves(s: Sched, x: nat, l: nat, k: nat) returns (k': nat)
    requires Inv(s) && s.current.Busy? && At(s, x, l, k) && !OnCpu(Pick(Block(s)), x)
    ensures var t := Pick(Block(s));
            && At(t, x, l, k') && t.current.Busy? && t.queues[l][k'] == s.queues[l][k]
            && t.current.proc.quantum >= 40
            && (l == 0 ==> k' == k - 1 && t.current.proc.quantum == 40)
  {
    var t := Block(s).(current := Nobody);
    assert Pick(Block(s)) == Pick(t);
    PushKeeps(s.(current := Nobody), WAITING_QUEUE, s.current.proc.(state := Waiting), x);
    k' := PickMoves(t, x, l, k);
  }

  /** Arrivals join queues at the tail. */
  lemma ArrivalMoves(s: Sched, e: Event, x: nat, l: nat, k: nat)
    requires Inv(s) && At(s, x, l, k) && (e.EnqueueEvent? || e.UnblockEvent?)
    ensures Step(s, e).current == s.current
    ensures At(Step(s, e), x, l, k) && Step(s, e).queues[l][k] == s.queues[l][k]
  {
    InvLevelled(s);
  }

  /** No step raises the rank of a waiting process, and every timer tick lowers it. */
  lemma StepMoves(s: Sched, e: Event, x: nat, l: nat, k: nat) returns (l': nat, k': nat)
    requires Inv(s) && Enabled(s, e) && s.current.Busy? && At(s, x, l, k) && !OnCpu(Step(s, e), x)
    ensures At(Step(s, e), x, l', k') && Step(s, e).current.Busy?
    ensures l == 0 ==> l' == 0
    ensures l == 0 ==> Front(Step(s, e), k') + (if e.TimerEvent? then 1 else 0) <= Front(s, k)
    ensures l > 0 ==> Climb(Step(s, e), l', k') + (if e.TimerEvent? then 1 else 0) <= Climb(s, l, k)
  {
    l', k' := l, k;
    match e
    case TimerEvent =>
      l', k' := TimerMoves(s, x, l, k);
    case BlockEvent =>
      k' := BlockMoves(s, x, l, k);
      RankDrops(Remaining(l, s.queues[l][k].age), s.current.proc.quantum, Step(s, e).current.proc.quantum);
    case _ =>
      ArrivalMoves(s, e, x, l, k);
  }

  // ----- Runs -----

  /** Process x becomes current somewhere in the run. */
  ghost predicate Dispatched(s: Sched, es: seq<Event>, x: nat)
    requires Inv(s) && Runs(s, es)
    decreases |es|
  {
    es != [] &&
    (StepInv(s, es[0]);
     OnCpu(Step(s, es[0]), x) || Dispatched(Step(s, es[0]), es[1..], x))
  }

  function Ticks(es: seq<Event>): nat
  {
    if es == [] then 0 else (if es[0].TimerEvent? then 1 else 0) + Ticks(es[1..])
  }

  function Newcomers(es: seq<Event>): nat
  {
    if es == [] then 0 else (if es[0].EnqueueEvent? then 1 else 0) + Newcomers(es[1..])
  }

  /** A process at level 0 behind k others waits fewer ticks than their quanta add up to. */
  lemma {:induction false} FrontWait(s: Sched, es: seq<Event>, x: nat, k: nat)
    requires Inv(s) && Runs(s, es) && s.current.Busy? && At(s, x, 0, k)
    requires !Dispatched(s, es, x)
    ensures Ticks(es) < Front(s, k)
    decreases |es|
  {
    if es != [] {
      StepInv(s, es[0]);
      var _, k' := StepMoves(s, es[0], x, 0, k);
      FrontWait(Step(s, es[0]), es[1..], x, k');
    }
  }

  /** All processes, wherever they stand. */
  function Population(s: Sched): nat
    requires |s.queues| == 5
  {
    |s.queues[0]| + |s.queues[1]| + |s.queues[2]| + |s.queues[3]| + |s.queues[4]| +
    if s.current.Busy? then 1 else 0
  }

  lemma AgeLevelPopulation(queues: seq<seq<Proc>>, i: nat)
    requires 1 <= i < MLFQ_LEVELS && Levelled(queues)
    ensures var r := AgeLevel(queues, i);
            |r[0]| + |r[1]| + |r[2]| + |r[3]| + |r[4]| ==
            |queues[0]| + |queues[1]| + |queues[2]| + |queues[3]| + |queues[4]|
  {
    CountSplit(queues[i], i, 0);
  }

  lemma TickPopulation(s: Sched)
    requires Inv(s)
    ensures |Tick(s).queues| == 5 && Population(Tick(s)) == Population(s)
  {
    InvLevelled(s);
    if s.current.Busy? && s.current.proc.quantum != 1 {
      AgeLevelPopulation(s.queues, 1);
      AgeLevelPopulation(AgeLevel(s.queues, 1), 2);
      AgeLevelPopulation(AgeLevel(AgeLevel(s.queues, 1), 2), 3);
    }
  }

  lemma StepPopulation(s: Sched, e: Event)
    requires Inv(s) && Enabled(s, e)
    ensures |Step(s, e).queues| == 5
    ensures Population(Step(s, e)) == Population(s) + if e.EnqueueEvent? then 1 else 0
  {
    match e
    case TimerEvent => TickPopulation(s);
    case EnqueueEvent(y) =>
    case BlockEvent => BlockPopulation(s);
    case UnblockEvent(y) => UnblockPopulation(s, y);
  }

  lemma BlockPopulation(s: Sched)
    requires Inv(s)
    ensures |Pick(Block(s)).queues| == 5 && Population(Pick(Block(s))) == Population(s)
  {
  }

  lemma UnblockPopulation(s: Sched, y: nat)
    requires Inv(s)
    ensures |Unblock(s, y).queues| == 5 && Population(Unblock(s, y)) == Population(s)
  {
    InvLevelled(s);
  }

  /** How many stand ahead of x when it first stands at level 0 in the run. */
  ghost function Ahead(s: Sched, es: seq<Event>, x: nat): nat
    requires Inv(s) && Runs(s, es)
    decreases |es|
  {
    if exists k: nat :: At(s, x, 0, k) then var k: nat :| At(s, x, 0, k); k
    else if es == [] then 0
    else StepInv(s, es[0]); Ahead(Step(s, es[0]), es[1..], x)
  }

  /**
    The longest wait of a process of age a at level l, counted in timer ticks, when n stand ahead of
    it at level 0: the climb, then the running process and everybody ahead.
   */
  function WaitBound(l: nat, a: nat, n: nat): nat
  {
    var r := Remaining(l, a);
    r + 1 + r / 39 + 160 + 40 * n
  }

  lemma {:induction false} ClimbWait(s: Sched, es: seq<Event>, x: nat, l: nat, k: nat)
    requires Inv(s) && Runs(s, es) && s.current.Busy? && At(s, x, l, k)
    requires !Dispatched(s, es, x)
    ensures Ticks(es) < Climb(s, l, k) + 160 + 40 * Ahead(s, es, x)
    decreases |es|
  {
    if exists i: nat :: At(s, x, 0, i) {
      FrontWait(s, es, x, Ahead(s, es, x));
    } else if es != [] {
      StepInv(s, es[0]);
      var l', k' := StepMoves(s, es[0], x, l, k);
      ClimbWait(Step(s, es[0]), es[1..], x, l', k');
    }
  }

  /** Those ahead, the process itself and the running one are different processes. */
  lemma {:induction false} AheadBounded(s: Sched, es: seq<Event>, x: nat, l: nat, k: nat)
    requires Inv(s) && Runs(s, es) && s.current.Busy? && At(s, x, l, k) && !Dispatched(s, es, x)
    ensures Ahead(s, es, x) <= Population(s) + Newcomers(es) - 2
    decreases |es|
  {
    if es != [] && !exists i: nat :: At(s, x, 0, i) {
      StepInv(s, es[0]);
      StepPopulation(s, es[0]);
      var l', k' := StepMoves(s, es[0], x, l, k);
      AheadBounded(Step(s, es[0]), es[1..], x, l', k');
    }
  }

  /**
    Bounded waiting.  In every run that starts with a process on the CPU, a ready process is
    dispatched before the number of timer ticks reaches its bound, whatever else happens: other
    processes may block, wake up or arrive at any time.
   */
  lemma BoundedWaiting(s: Sched, es: seq<Event>, x: nat, l: nat, k: nat)
    requires Inv(s) && Runs(s, es) && s.current.Busy? && At(s, x, l, k)
    requires Ticks(es) >= WaitBound(l, s.queues[l][k].age, Ahead(s, es, x))
    ensures Dispatched(s, es, x)
  {
    if !Dispatched(s, es, x) {
      ClimbWait(s, es, x, l, k);
      ExpiriesBound(Remaining(l, s.queues[l][k].age), s.current.proc.quantum);
    }
  }

  /** The same with a bound known at the start, up to the number of processes that arrive. */
  lemma BoundedByPopulation(s: Sched, es: seq<Event>, x: nat, l: nat, k: nat)
    requires Inv(s) && Runs(s, es) && s.current.Busy? && At(s, x, l, k)
    requires Ticks(es) >= WaitBound(l, s.queues[l][k].age, Population(s) + Newcomers(es) - 2)
    ensures Dispatched(s, es, x)
  {
    if !Dispatched(s, es, x) {
      AheadBounded(s, es, x, l, k);
      BoundedWaiting(s, es, x, l, k);
    }
  }

  // ----- When the timer alone suffices -----

  /** With the idle process current only an explicit pick can dispatch anybody. */
  lemma {:induction false} IdleStarves(s: Sched, es: seq<Event>, x: nat)
    requires Inv(s) && Runs(s, es) && s.current.Idle? && BlockEvent !in es
    ensures !Dispatched(s, es, x)
    decreases |es|
  {
    if es != [] {
      StepInv(s, es[0]);
      assert es[0] != BlockEvent;
      IdleStarves(Step(s, es[0]), es[1..], x);
    }
  }

  function Timers(n: nat): (es: seq<Event>)
    ensures BlockEvent !in es && Ticks(es) == n && Newcomers(es) == 0
  {
    if n == 0 then [] else [TimerEvent] + Timers(n - 1)
  }

  lemma {:induction false} TimersRun(s: Sched, n: nat)
    requires Inv(s)
    ensures Runs(s, Timers(n))
    decreases n
  {
    if n > 0 {
      StepInv(s, TimerEvent);
      TimersRun(Step(s, TimerEvent), n - 1);
      assert Timers(n)[1..] == Timers(n - 1);
    }
  }

  ghost predicate DispatchedByTimer(s: Sched, n: nat, x: nat)
    requires Inv(s)
  {
    TimersRun(s, n);
    Dispatched(s, Timers(n), x)
  }

  lemma BusyDispatches(s: Sched, x: nat, l: nat, k: nat) returns (n: nat)
    requires Inv(s) && At(s, x, l, k) && s.current.Busy?
    ensures DispatchedByTimer(s, n, x)
  {
    n := WaitBound(l, s.queues[l][k].age, Population(s));
    TimersRun(s, n);
    hide Step, Inv, Timers, At;
    BoundedByPopulation(s, Timers(n), x, l, k);
  }

  lemma NobodyDispatches(s: Sched, x: nat, l: nat, k: nat) returns (n: nat)
    requires Inv(s) && At(s, x, l, k) && s.current.Nobody?
    ensures DispatchedByTimer(s, n, x)
  {
    StepInv(s, TimerEvent);
    NobodyPicks(s, x, l, k);
    n := 1;
    if !OnCpu(Step(s, TimerEvent), x) {
      var k' := PickMoves(s, x, l, k);
      hide Step, Inv, Timers, Population, At, WaitBound, OnCpu, Dispatched, DispatchedByTimer, Pick;
      var m := BusyDispatches(Step(s, TimerEvent), x, l, k');
      n := m + 1;
    }
    hide Step, Inv, Timers, Population, At, WaitBound, OnCpu, Dispatched, DispatchedByTimer;
    LaterDispatched(s, n, x);
  }

  lemma NobodyPicks(s: Sched, x: nat, l: nat, k: nat)
    requires Inv(s) && At(s, x, l, k) && s.current.Nobody?
    ensures Step(s, TimerEvent) == Pick(s) && Pick(s).current.Busy?
  {
    InvLevelled(s);
  }

  lemma LaterDispatched(s: Sched, n: nat, x: nat)
    requires Inv(s) && n > 0 && Inv(Step(s, TimerEvent))
    requires OnCpu(Step(s, TimerEvent), x) || DispatchedByTimer(Step(s, TimerEvent), n - 1, x)
    ensures DispatchedByTimer(s, n, x)
  {
    TimersRun(s, n);
    TimersRun(Step(s, TimerEvent), n - 1);
    assert Timers(n)[1..] == Timers(n - 1);
    hide Step, Inv;
  }

  /**
    The timer alone dispatches a ready process after some number of ticks exactly when the idle
    process is not current: the idle process is never preempted.
   */
  lemma TimerDispatchesIff(s: Sched, x: nat, l: nat, k: nat)
    requires Inv(s) && At(s, x, l, k)
    ensures (exists n :: DispatchedByTimer(s, n, x)) <==> s.current != Idle
  {
    match s.current
    case Nobody =>
      var n := NobodyDispatches(s, x, l, k);
    case Busy(_) =>
      var n := BusyDispatches(s, x, l, k);
    case Idle =>
      forall n: nat
        ensures !DispatchedByTimer(s, n, x)
      {
        TimersRun(s, n);
        IdleStarves(s, Timers(n), x);
      }
  }

  // ----- Who is picked -----

  /**
    A pick takes the first process of the most urgent non-empty queue, the idle process exactly when
    no process is ready, and leaves everybody else in order.
   */
  lemma PickIsMostUrgent(s: Sched) returns (l: nat)
    requires Sound(s)
    ensures !Pick(s).current.Nobody?
    ensures Pick(s).current.Idle? <==> forall x: nat, i: nat, k: nat :: !At(s, x, i, k)
    ensures Pick(s).current.Idle? ==> Pick(s).queues == s.queues && Pick(s).idle == s.idle.(state := Running)
    ensures Pick(s).current.Busy? ==>
              var p := Pick(s).current.proc;
              && At(s, p.pid, l, 0) && p == s.queues[l][0].(state := Running)
              && (forall y: nat, i: nat, k: nat :: At(s, y, i, k) && y != p.pid ==> l < i || (l == i && 0 < k))
              && Pick(s).queues == s.queues[l := s.queues[l][1..]]
  {
    l := FirstReady(s.queues, 0);
    if l < MLFQ_LEVELS {
      assert At(s, s.queues[l][0].pid, l, 0);
    }
  }

  /**
    The timer handler always leaves somebody current, lets a process go on until its quantum is used
    up, and never falls back to the idle process when a process was running.
   */
  lemma TimerSelects(s: Sched)
    requires Inv(s)
    ensures !Timer(s).current.Nobody?
    ensures s.current.Busy? ==> Timer(s).current.Busy?
    ensures s.current.Busy? && s.current.proc.quantum > 1 ==>
              Timer(s).current.proc == s.current.proc.(quantum := s.current.proc.quantum - 1)
    ensures s.current.Busy? && s.current.proc.quantum == 1 ==> Timer(s).current.proc.quantum >= 40
  {
    if s.current.Busy? && s.current.proc.quantum == 1 {
      TickKeeps(s, 0);
      var t := Tick(s);
      var l := FirstReady(t.queues, 0);
      var p := Expired(s.current.proc);
      assert t.queues[p.priority] != [];
      assert Fits(t.queues[l][0], l) by { assert QueueOk(t.queues[l], l); }
    }
  }
}
