/** Accounting over runs: ageing ticks are neither lost nor counted twice, and levels follow from what happened. */
module SchedAgeing {
  import opened SchedSpec
  import opened SchedInvariant
  import opened SchedLiveness

  /** p is the record of process x, wherever x stands. */
  ghost predicate Holds(s: Sched, x: nat, p: Proc)
    requires |s.queues| == 5
  {
    p.pid == x && ((s.current.Busy? && s.current.proc == p) || Queued(s, p))
  }

  ghost predicate Queued(s: Sched, p: Proc)
    requires |s.queues| == 5
  {
    exists i, k :: 0 <= i < 5 && 0 <= k < |s.queues[i]| && s.queues[i][k] == p
  }

  /** The priority queue that x stands in, or MLFQ_LEVELS. */
  function LevelOf(s: Sched, x: nat): nat
    requires |s.queues| == 5
  {
    if IndexOf(s.queues[0], x) < |s.queues[0]| then 0
    else if IndexOf(s.queues[1], x) < |s.queues[1]| then 1
    else if IndexOf(s.queues[2], x) < |s.queues[2]| then 2
    else if IndexOf(s.queues[3], x) < |s.queues[3]| then 3
    else MLFQ_LEVELS
  }

  /** The event is an ageing tick and finds x waiting at a level above 0. */
  predicate Ages(s: Sched, e: Event, x: nat)
    requires |s.queues| == 5
  {
    e.TimerEvent? && s.current.Busy? && s.current.proc.quantum != 1 && 1 <= LevelOf(s, x) < MLFQ_LEVELS
  }

  /** The event is the last tick of x's quantum, at a level from which it can still fall. */
  predicate Demotes(s: Sched, e: Event, x: nat)
  {
    e.TimerEvent? && OnCpu(s, x) && s.current.proc.quantum == 1 && s.current.proc.priority < 3
  }

  /** The age that x loses when the event wakes it up. */
  function Forgiven(s: Sched, e: Event, x: nat): nat
    requires |s.queues| == 5
  {
    var w := s.queues[WAITING_QUEUE];
    if e == UnblockEvent(x) && IndexOf(w, x) < |w| then w[IndexOf(w, x)].age else 0
  }

  predicate MovesUp(s: Sched, t: Sched, x: nat)
    requires |s.queues| == 5 && |t.queues| == 5
  {
    LevelOf(s, x) < MLFQ_LEVELS && LevelOf(t, x) < LevelOf(s, x)
  }

  // ----- A process stands in one place -----

  lemma QueueCount(s: Sched, i: nat, k: nat)
    requires |s.queues| == 5 && i < 5 && k < |s.queues[i]|
    ensures Count(s.queues[i], s.queues[i][k].pid) >= 1
  {
    CountMember(s.queues[i], k);
  }

  lemma {:induction false} LevelUnique(s: Sched, x: nat, i: nat, k: nat)
    requires Inv(s) && i < 5 && k < |s.queues[i]| && s.queues[i][k].pid == x
    ensures LevelOf(s, x) == i
    ensures !OnCpu(s, x)
  {
    assert Places(s, x) <= 1;
    QueueCount(s, i, k);
    var j := LevelOf(s, x);
    if j < MLFQ_LEVELS {
      QueueCount(s, j, IndexOf(s.queues[j], x));
    }
  }

  lemma {:induction false} CpuUnique(s: Sched, x: nat)
    requires Inv(s) && OnCpu(s, x)
    ensures LevelOf(s, x) == MLFQ_LEVELS
  {
    assert Places(s, x) <= 1;
    var j := LevelOf(s, x);
    if j < MLFQ_LEVELS {
      QueueCount(s, j, IndexOf(s.queues[j], x));
    }
  }

  /** Two indices of one queue never hold the same process. */
  lemma IndexUnique(s: Sched, x: nat, i: nat, j: nat, k: nat)
    requires Inv(s) && i < 5 && j < |s.queues[i]| && k < |s.queues[i]|
    requires s.queues[i][j].pid == x && s.queues[i][k].pid == x
    ensures j == k
  {
    var q := s.queues[i];
    if j != k {
      var lo, hi := if j < k then j else k, if j < k then k else j;
      assert Places(s, x) <= 1;
      assert Without(q, hi)[lo] == q[lo];
      CountWithout(q, hi, x);
      CountMember(Without(q, hi), lo);
    }
  }

  lemma {:induction false} IndexBounds(q: seq<Proc>, x: nat, k: nat)
    requires k < |q| && q[k].pid == x
    ensures IndexOf(q, x) < |q|
  {
    if q[0].pid != x {
      IndexBounds(q[1..], x, k - 1);
    }
  }

  // ----- What the operations do to a record -----

  lemma PushHolds(s: Sched, i: nat, q: Proc, x: nat, p: Proc)
    requires |s.queues| == 5 && i < 5
    ensures Holds(s, x, p) ==> Holds(Push(s, i, q), x, p)
    ensures q.pid == x ==> Holds(Push(s, i, q), x, q)
  {
    var t := Push(s, i, q);
    assert t.queues[i][|s.queues[i]|] == q;
    if Queued(s, p) {
      var j, k :| 0 <= j < 5 && 0 <= k < |s.queues[j]| && s.queues[j][k] == p;
      assert t.queues[j][k] == p;
    }
  }

  /** A pick may change the state of the record, never its age or level. */
  lemma PickHolds(s: Sched, x: nat, p: Proc) returns (p': Proc)
    requires |s.queues| == 5 && s.current.Nobody? && Holds(s, x, p)
    ensures Holds(Pick(s), x, p') && p'.age == p.age && p'.priority == p.priority
  {
    var l := FirstReady(s.queues, 0);
    var j, k :| 0 <= j < 5 && 0 <= k < |s.queues[j]| && s.queues[j][k] == p;
    if j == l && k == 0 && l < MLFQ_LEVELS {
      p' := p.(state := Running);
    } else {
      p' := p;
      assert Pick(s).queues[j][if j == l && l < MLFQ_LEVELS then k - 1 else k] == p;
    }
  }

  lemma UnblockHolds(s: Sched, y: nat, x: nat, p: Proc)
    requires Inv(s) && Holds(s, x, p) && x != y
    ensures Holds(Unblock(s, y), x, p)
  {
    InvLevelled(s);
    var w := s.queues[WAITING_QUEUE];
    var m := IndexOf(w, y);
    if m < |w| {
      var t := s.(queues := s.queues[WAITING_QUEUE := Without(w, m)]);
      if Queued(s, p) {
        var j, k :| 0 <= j < 5 && 0 <= k < |s.queues[j]| && s.queues[j][k] == p;
        assert t.queues[j][if j == WAITING_QUEUE && k > m then k - 1 else k] == p;
      }
      assert Fits(w[m], WAITING_QUEUE) by { assert QueueOk(w, WAITING_QUEUE); }
      PushHolds(t, w[m].priority, Woken(w[m]), x, p);
    }
  }

  /** A process that is woken up loses its age and keeps its level. */
  lemma WakeHolds(s: Sched, x: nat, p: Proc) returns (p': Proc)
    requires Inv(s) && Holds(s, x, p)
    ensures Holds(Unblock(s, x), x, p') && p'.priority == p.priority
    ensures p'.age + Forgiven(s, UnblockEvent(x), x) == p.age
  {
    InvLevelled(s);
    var w := s.queues[WAITING_QUEUE];
    var m := IndexOf(w, x);
    p' := p;
    if m < |w| {
      LevelUnique(s, x, WAITING_QUEUE, m);
      var j, k :| 0 <= j < 5 && 0 <= k < |s.queues[j]| && s.queues[j][k] == p;
      LevelUnique(s, x, j, k);
      IndexUnique(s, x, j, k, m);
      p' := Woken(p);
      PushHolds(s.(queues := s.queues[WAITING_QUEUE := Without(w, m)]), p.priority, p', x, p');
    }
  }

  lemma BlockPickHolds(s: Sched, x: nat, p: Proc) returns (p': Proc)
    requires Inv(s) && Holds(s, x, p)
    ensures Holds(Pick(Block(s)), x, p') && p'.age == p.age && p'.priority == p.priority
  {
    var t := Block(s).(current := Nobody);
    assert Pick(Block(s)) == Pick(t);
    p' := p;
    if s.current.Busy? {
      var q := s.current.proc.(state := Waiting);
      PushHolds(s.(current := Nobody), WAITING_QUEUE, q, x, p);
      p' := if s.current.proc == p then q else p;
    }
    p' := PickHolds(t, x, p');
  }

  lemma CpuHolds(s: Sched, x: nat, p: Proc)
    requires Inv(s) && Holds(s, x, p) && OnCpu(s, x)
    ensures s.current.proc == p
  {
    if s.current.proc != p {
      var i, k :| 0 <= i < 5 && 0 <= k < |s.queues[i]| && s.queues[i][k] == p;
      LevelUnique(s, x, i, k);
    }
  }

  lemma ExpiryHolds(s: Sched, x: nat, p: Proc) returns (p': Proc)
    requires Inv(s) && Holds(s, x, p) && s.current.Busy? && s.current.proc.quantum == 1
    ensures Holds(Timer(s), x, p') && p'.age == p.age
    ensures p'.priority == p.priority + if Demotes(s, TimerEvent, x) then 1 else 0
  {
    InvLevelled(s);
    var q := Expired(s.current.proc.(quantum := 0));
    var t := Tick(s);
    if OnCpu(s, x) {
      CpuHolds(s, x, p);
    }
    PushHolds(s.(current := Nobody), q.priority, q, x, p);
    assert t == Push(s.(current := Nobody), q.priority, q);
    p' := PickHolds(t, x, if s.current.proc == p then q else p);
  }

  lemma AgeingQueued(s: Sched, t: Sched, i: nat, k: nat) returns (p': Proc)
    requires Inv(s) && Inv(t) && Levelled(s.queues) && t.queues == AgeAll(s.queues)
    requires i < MLFQ_LEVELS && k < |s.queues[i]|
    ensures var p := s.queues[i][k];
            && Holds(t, p.pid, p')
            && p'.age + (if MovesUp(s, t, p.pid) then 600 else 0) ==
               p.age + (if 1 <= LevelOf(s, p.pid) < MLFQ_LEVELS then 1 else 0)
            && p'.priority + (if MovesUp(s, t, p.pid) then 1 else 0) == p.priority
            && (MovesUp(s, t, p.pid) ==> 1 <= LevelOf(s, p.pid) < MLFQ_LEVELS)
  {
    var p := s.queues[i][k];
    assert Fits(p, i) by { assert QueueOk(s.queues[i], i); }
    LevelUnique(s, p.pid, i, k);
    AgeMoves(s.queues, i, k);
    var i', k' := AgedLevel(s.queues, i, k), AgedIndex(s.queues, i, k);
    p' := t.queues[i'][k'];
    hide AgeAll, LevelOf, Inv;
    LevelUnique(t, p.pid, i', k');
  }

  lemma AgeingTimer(s: Sched)
    requires Inv(s) && s.current.Busy? && s.current.proc.quantum != 1
    ensures Levelled(s.queues) && Timer(s).queues == AgeAll(s.queues) && |Timer(s).queues| == 5
    ensures Timer(s).queues[WAITING_QUEUE] == s.queues[WAITING_QUEUE]
    ensures Timer(s).current == Busy(s.current.proc.(quantum := s.current.proc.quantum - 1))
  {
    InvLevelled(s);
  }

  /** An ageing tick, seen from x: one tick older, or promoted with its age used up. */
  lemma AgeingHolds(s: Sched, x: nat, p: Proc) returns (p': Proc)
    requires Inv(s) && Inv(Timer(s)) && Holds(s, x, p) && s.current.Busy? && s.current.proc.quantum != 1
    ensures Holds(Timer(s), x, p')
    ensures p'.age + (if MovesUp(s, Timer(s), x) then 600 else 0) ==
            p.age + if 1 <= LevelOf(s, x) < MLFQ_LEVELS then 1 else 0
    ensures p'.priority + (if MovesUp(s, Timer(s), x) then 1 else 0) == p.priority
    ensures MovesUp(s, Timer(s), x) ==> 1 <= LevelOf(s, x) < MLFQ_LEVELS
  {
    AgeingTimer(s);
    var t := Timer(s);
    hide AgeAll, LevelOf, Inv, Timer;
    if s.current.proc == p {
      p' := t.current.proc;
      CpuUnique(s, x);
    } else {
      var i, k :| 0 <= i < 5 && 0 <= k < |s.queues[i]| && s.queues[i][k] == p;
      if i == WAITING_QUEUE {
        LevelUnique(s, x, i, k);
        p' := p;
        assert t.queues[i][k] == p;
      } else {
        p' := AgeingQueued(s, t, i, k);
      }
    }
  }

  lemma StepAge(s: Sched, e: Event, x: nat, p: Proc) returns (p': Proc)
    requires Inv(s) && Enabled(s, e) && Inv(Step(s, e)) && Holds(s, x, p)
    ensures Holds(Step(s, e), x, p')
    ensures p'.age + (if Ages(s, e, x) && MovesUp(s, Step(s, e), x) then 600 else 0) + Forgiven(s, e, x) ==
            p.age + if Ages(s, e, x) then 1 else 0
    ensures p'.priority + (if Ages(s, e, x) && MovesUp(s, Step(s, e), x) then 1 else 0) ==
            p.priority + if Demotes(s, e, x) then 1 else 0
  {
    InvLevelled(s);
    match e
    case TimerEvent =>
      if s.current.Nobody? {
        p' := PickHolds(s, x, p);
      } else if s.current.Idle? {
        p' := p;
      } else if s.current.proc.quantum == 1 {
        p' := ExpiryHolds(s, x, p);
      } else {
        p' := AgeingHolds(s, x, p);
      }
    case EnqueueEvent(y) =>
      p' := p;
      PushHolds(s, 0, Fresh(y), x, p);
    case BlockEvent =>
      p' := BlockPickHolds(s, x, p);
    case UnblockEvent(y) =>
      if x == y {
        p' := WakeHolds(s, x, p);
      } else {
        p' := p;
        UnblockHolds(s, y, x, p);
      }
  }

  // ----- Runs -----

  ghost function AgeingTicks(s: Sched, es: seq<Event>, x: nat): nat
    requires Inv(s) && Runs(s, es)
    decreases |es|
  {
    if es == [] then 0
    else
      StepInv(s, es[0]);
      (if Ages(s, es[0], x) then 1 else 0) + AgeingTicks(Step(s, es[0]), es[1..], x)
  }

  ghost function Promotions(s: Sched, es: seq<Event>, x: nat): nat
    requires Inv(s) && Runs(s, es)
    decreases |es|
  {
    if es == [] then 0
    else
      StepInv(s, es[0]);
      (if Ages(s, es[0], x) && MovesUp(s, Step(s, es[0]), x) then 1 else 0) +
      Promotions(Step(s, es[0]), es[1..], x)
  }

  ghost function Demotions(s: Sched, es: seq<Event>, x: nat): nat
    requires Inv(s) && Runs(s, es)
    decreases |es|
  {
    if es == [] then 0
    else
      StepInv(s, es[0]);
      (if Demotes(s, es[0], x) then 1 else 0) + Demotions(Step(s, es[0]), es[1..], x)
  }

  ghost function ForgivenIn(s: Sched, es: seq<Event>, x: nat): nat
    requires Inv(s) && Runs(s, es)
    decreases |es|
  {
    if es == [] then 0
    else
      StepInv(s, es[0]);
      Forgiven(s, es[0], x) + ForgivenIn(Step(s, es[0]), es[1..], x)
  }

  /**
    The ageing ticks that x spends above level 0 equal 600 times its promotions plus what it was
    forgiven plus what its age grew by, through every interleaving of dispatches, expiries, blocks and
    wake-ups: only a promotion or a wake-up uses age up, a dispatch does not.  And its level is where
    it started plus the quanta that it used up above the lowest level minus its promotions.
   */
  lemma {:induction false} AgeAccounting(s: Sched, es: seq<Event>, x: nat, p: Proc) returns (p': Proc)
    requires Inv(s) && Runs(s, es) && Holds(s, x, p)
    ensures Inv(Exec(s, es)) && Holds(Exec(s, es), x, p')
    ensures p'.age + 600 * Promotions(s, es, x) + ForgivenIn(s, es, x) == p.age + AgeingTicks(s, es, x)
    ensures p'.priority + Promotions(s, es, x) == p.priority + Demotions(s, es, x)
    decreases |es|
  {
    p' := p;
    if es != [] {
      StepInv(s, es[0]);
      var q := StepAge(s, es[0], x, p);
      p' := AgeAccounting(Step(s, es[0]), es[1..], x, q);
    }
  }

  /** The same from its creation on: a new process starts at level 0 with age 0 and a quantum of 40. */
  lemma LifeAccounting(s: Sched, es: seq<Event>, x: nat) returns (p': Proc)
    requires Inv(s) && Enabled(s, EnqueueEvent(x)) && Inv(Step(s, EnqueueEvent(x)))
    requires Runs(Step(s, EnqueueEvent(x)), es)
    ensures var t := Step(s, EnqueueEvent(x));
            && t == s.(queues := s.queues[0 := s.queues[0] + [Proc(x, Ready, 0, 40, 0)]])
            && Inv(Exec(t, es)) && Holds(Exec(t, es), x, p')
            && p'.age + 600 * Promotions(t, es, x) + ForgivenIn(t, es, x) == AgeingTicks(t, es, x)
            && p'.priority + Promotions(t, es, x) == Demotions(t, es, x)
  {
    PushHolds(s, 0, Fresh(x), x, Fresh(x));
    p' := AgeAccounting(Step(s, EnqueueEvent(x)), es, x, Fresh(x));
  }

  // ----- One event, in numbers -----

  /** The last tick of a quantum: one level down if there is one, at the tail, with that level's quantum. */
  lemma ExpiryDemotes(s: Sched, p: Proc)
    requires Inv(s) && s.current == Busy(p) && p.quantum == 1
    ensures Levelled(s.queues)
    ensures var l := if p.priority < 3 then p.priority + 1 else 3;
            && Tick(s).queues == s.queues[l := s.queues[l] + [Proc(p.pid, Ready, l, [40, 80, 120, 160][l], p.age)]]
            && Tick(s).current == Nobody && Tick(s).idle == s.idle
  {
    InvLevelled(s);
  }

  /** Any other tick: the quantum shrinks, and who waits above level 0 ages or, at 600, goes one level up. */
  lemma TickAges(s: Sched, p: Proc, l: nat, k: nat)
    requires Inv(s) && s.current == Busy(p) && p.quantum != 1 && l < 4 && k < |s.queues[l]|
    ensures Levelled(s.queues)
    ensures Tick(s).current == Busy(p.(quantum := p.quantum - 1)) && Tick(s).idle == s.idle
    ensures var q, l', k' := s.queues[l][k], AgedLevel(s.queues, l, k), AgedIndex(s.queues, l, k);
            && l' == (if l > 0 && q.age == 599 then l - 1 else l) && k' < |Tick(s).queues[l']|
            && Tick(s).queues[l'][k'] ==
               if l == 0 then q
               else if q.age == 599 then Proc(q.pid, Ready, l - 1, [40, 80, 120, 160][l - 1], 0)
               else q.(age := q.age + 1)
  {
    InvLevelled(s);
    assert Fits(s.queues[l][k], l) by { assert QueueOk(s.queues[l], l); }
    AgeMoves(s.queues, l, k);
    hide AgeAll, AgedIndex;
  }

  /** Waking up: out of the waiting queue and to the tail of its level, with a full quantum and age 0. */
  lemma UnblockWakes(s: Sched, k: nat)
    requires Inv(s) && k < |s.queues[4]|
    ensures var w, l := s.queues[4], s.queues[4][k].priority;
            && l < 4 && (forall p :: p in s.queues[WAITING_QUEUE] ==> p.priority < MLFQ_LEVELS)
            && Unblock(s, w[k].pid) ==
               s.(queues := s.queues[4 := w[..k] + w[k + 1..]][l := s.queues[l]
                              + [Proc(w[k].pid, Ready, l, [40, 80, 120, 160][l], 0)]])
  {
    InvLevelled(s);
    var w := s.queues[4];
    IndexBounds(w, w[k].pid, k);
    IndexUnique(s, w[k].pid, 4, k, IndexOf(w, w[k].pid));
    assert Fits(w[k], 4) by { assert QueueOk(w, 4); }
  }
}
