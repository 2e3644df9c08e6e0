/**
  The scheduler as a pure state machine.

  A process is the part of its control block that the scheduler reads and writes, stored directly in
  the place that holds the process: one of the five queues or the current slot.  Queues 0 to 3 are the
  priority queues and queue 4 is the waiting queue.
*/
module SchedSpec {
  const MLFQ_LEVELS: nat := 4
  const WAITING_QUEUE: nat := 4
  const AGE_TICK_MAX: nat := 600
  const U32_MAX: nat := 0xFFFF_FFFF

  datatype ProcState = New | Ready | Running | Waiting | Terminating

  datatype Proc = Proc(pid: nat, state: ProcState, priority: nat, quantum: nat, age: nat)

  /** What `current_pcb` points to. */
  datatype Current = Nobody | Idle | Busy(proc: Proc)

  datatype Sched = Sched(queues: seq<seq<Proc>>, current: Current, idle: Proc)

  /** MLFQ_QUANTUMS */
  function Quantum(level: nat): nat
    requires level < MLFQ_LEVELS
  {
    if level == 0 then 40 else if level == 1 then 80 else if level == 2 then 120 else 160
  }

  /** Unsigned 32-bit decrement and increment, wrap-around included. */
  function Dec32(x: nat): nat { if x == 0 then U32_MAX else x - 1 }

  function Inc32(x: nat): nat { if x == U32_MAX then 0 else x + 1 }

  // ----- Operations -----

  function Push(s: Sched, i: nat, p: Proc): Sched
    requires i < |s.queues|
  {
    s.(queues := s.queues[i := s.queues[i] + [p]])
  }

  /** sched_enqueue */
  function Enqueue(s: Sched, p: Proc): Sched
    requires |s.queues| == 5 && p.priority < MLFQ_LEVELS
  {
    match p.state
    case Ready => Push(s, p.priority, p)
    case Waiting => Push(s, WAITING_QUEUE, p)
    case _ => s
  }

  /** The first non-empty priority queue at or above index i, or MLFQ_LEVELS. */
  function FirstReady(queues: seq<seq<Proc>>, i: nat): (l: nat)
    requires |queues| == 5 && i <= MLFQ_LEVELS
    ensures i <= l <= MLFQ_LEVELS
    ensures l < MLFQ_LEVELS ==> queues[l] != []
    ensures forall j :: i <= j < l ==> queues[j] == []
    decreases MLFQ_LEVELS - i
  {
    if i == MLFQ_LEVELS || queues[i] != [] then i else FirstReady(queues, i + 1)
  }

  /** sched_pick_next_process */
  function Pick(s: Sched): Sched
    requires |s.queues| == 5
  {
    var l := FirstReady(s.queues, 0);
    if l == MLFQ_LEVELS then
      s.(current := Idle, idle := s.idle.(state := Running))
    else
      s.(queues := s.queues[l := s.queues[l][1..]],
         current := Busy(s.queues[l][0].(state := Running)))
  }

  /** A process whose quantum ran out, as it is put back into its queue. */
  function Expired(p: Proc): Proc
    requires p.priority < MLFQ_LEVELS
  {
    var level := if p.priority < MLFQ_LEVELS - 1 then p.priority + 1 else p.priority;
    p.(state := Ready, priority := level, quantum := Quantum(level))
  }

  predicate Promotes(p: Proc) { Inc32(p.age) >= AGE_TICK_MAX }

  function Older(p: Proc): Proc { p.(age := Inc32(p.age)) }

  function Promotion(p: Proc): Proc
    requires 1 <= p.priority <= MLFQ_LEVELS
  {
    p.(age := 0, priority := p.priority - 1, quantum := Quantum(p.priority - 1))
  }

  predicate AtLevel(q: seq<Proc>, level: nat)
  {
    forall k | 0 <= k < |q| :: q[k].priority == level
  }

  /** Those of q that an ageing tick leaves in q, and those that it moves one level up, both in order. */
  function Survivors(q: seq<Proc>): (r: seq<Proc>)
    ensures |r| <= |q|
  {
    if q == [] then []
    else
      var init, p := q[..|q| - 1], q[|q| - 1];
      Survivors(init) + if Promotes(p) then [] else [Older(p)]
  }

  function Promoted(q: seq<Proc>, level: nat): seq<Proc>
    requires 1 <= level <= MLFQ_LEVELS && AtLevel(q, level)
  {
    if q == [] then []
    else
      var init, p := q[..|q| - 1], q[|q| - 1];
      Promoted(init, level) + if Promotes(p) then [Promotion(p)] else []
  }

  predicate Levelled(queues: seq<seq<Proc>>)
  {
    |queues| == 5 && forall i | 0 <= i < MLFQ_LEVELS :: AtLevel(queues[i], i)
  }

  /** The ageing walk over one priority queue. */
  function AgeLevel(queues: seq<seq<Proc>>, i: nat): (r: seq<seq<Proc>>)
    requires 1 <= i < MLFQ_LEVELS && Levelled(queues)
    ensures Levelled(r)
  {
    SurvivorsLevel(queues[i], i);
    PromotedLevel(queues[i], i);
    queues[i := Survivors(queues[i])][i - 1 := queues[i - 1] + Promoted(queues[i], i)]
  }

  function AgeAll(queues: seq<seq<Proc>>): (r: seq<seq<Proc>>)
    requires Levelled(queues)
    ensures Levelled(r)
  {
    AgeLevel(AgeLevel(AgeLevel(queues, 1), 2), 3)
  }

  lemma SurvivorsLevel(q: seq<Proc>, level: nat)
    requires AtLevel(q, level)
    ensures AtLevel(Survivors(q), level)
  {
  }

  lemma PromotedLevel(q: seq<Proc>, level: nat)
    requires 1 <= level <= MLFQ_LEVELS && AtLevel(q, level)
    ensures AtLevel(Promoted(q, level), level - 1)
  {
    if q != [] {
      PromotedLevel(q[..|q| - 1], level);
    }
  }

  /** sched_tick */
  function Tick(s: Sched): Sched
    requires Levelled(s.queues)
    requires s.current.Busy? ==> s.current.proc.priority < MLFQ_LEVELS
  {
    match s.current
    case Nobody => s
    case Idle => s
    case Busy(p) =>
      var p' := p.(quantum := Dec32(p.quantum));
      if p'.quantum == 0 then
        Enqueue(s, Expired(p')).(current := Nobody)
      else
        s.(queues := AgeAll(s.queues), current := Busy(p'))
  }

  /** sched_timer_handler, the context switch left out */
  function Timer(s: Sched): Sched
    requires Levelled(s.queues)
    requires s.current.Busy? ==> s.current.proc.priority < MLFQ_LEVELS
  {
    var t := Tick(s);
    if t.current.Nobody? || s.current.Nobody? then Pick(t) else t
  }

  /** sched_block_process: as written, the blocked process stays current */
  function Block(s: Sched): Sched
    requires |s.queues| == 5
    requires s.current.Busy? ==> s.current.proc.priority < MLFQ_LEVELS
  {
    match s.current
    case Busy(p) =>
      var p' := p.(state := Waiting);
      Enqueue(s, p').(current := Busy(p'))
    case _ => s
  }

  /** The index of pid in q, or |q|. */
  function IndexOf(q: seq<Proc>, pid: nat): (k: nat)
    ensures k <= |q|
    ensures k < |q| ==> q[k].pid == pid
    ensures forall j :: 0 <= j < k ==> q[j].pid != pid
  {
    if q == [] || q[0].pid == pid then 0 else 1 + IndexOf(q[1..], pid)
  }

  function Without(q: seq<Proc>, k: nat): seq<Proc>
    requires k < |q|
  {
    q[..k] + q[k + 1..]
  }

  function Woken(p: Proc): Proc
    requires p.priority < MLFQ_LEVELS
  {
    p.(state := Ready, age := 0, quantum := Quantum(p.priority))
  }

  /** sched_unblock_process */
  function Unblock(s: Sched, pid: nat): Sched
    requires |s.queues| == 5
    requires forall p :: p in s.queues[WAITING_QUEUE] ==> p.priority < MLFQ_LEVELS
  {
    var w := s.queues[WAITING_QUEUE];
    var k := IndexOf(w, pid);
    if k == |w| then s
    else Enqueue(s.(queues := s.queues[WAITING_QUEUE := Without(w, k)]), Woken(w[k]))
  }

  /** The scheduler fields of a control block as create_pcb leaves them. */
  function Fresh(pid: nat): Proc { Proc(pid, Ready, 0, 40, 0) }

  function Init(idle: Proc): Sched { Sched([[], [], [], [], []], Nobody, idle) }

  // ----- Invariant -----

  /** p may stand in queue i. */
  predicate Fits(p: Proc, i: nat)
  {
    p.priority < MLFQ_LEVELS && p.age < AGE_TICK_MAX &&
    if i < MLFQ_LEVELS then
      p.state == Ready && p.priority == i && p.quantum == Quantum(i)
    else
      p.state == Waiting && 1 <= p.quantum <= Quantum(p.priority)
  }

  predicate FitsCpu(p: Proc)
  {
    p.priority < MLFQ_LEVELS && p.age < AGE_TICK_MAX &&
    p.state == Running && 1 <= p.quantum <= Quantum(p.priority)
  }

  predicate QueueOk(q: seq<Proc>, i: nat)
  {
    forall k :: 0 <= k < |q| ==> Fits(q[k], i)
  }

  /** How often pid stands in q. */
  function Count(q: seq<Proc>, pid: nat): nat
  {
    if q == [] then 0
    else Count(q[..|q| - 1], pid) + if q[|q| - 1].pid == pid then 1 else 0
  }

  /** How many places of the scheduler hold pid. */
  function Places(s: Sched, pid: nat): nat
    requires |s.queues| == 5
  {
    Count(s.queues[0], pid) + Count(s.queues[1], pid) + Count(s.queues[2], pid) +
    Count(s.queues[3], pid) + Count(s.queues[4], pid) +
    if s.current.Busy? && s.current.proc.pid == pid then 1 else 0
  }

  ghost predicate Inv(s: Sched)
  {
    && |s.queues| == 5
    && (forall i :: 0 <= i < 5 ==> QueueOk(s.queues[i], i))
    && (s.current.Busy? ==> FitsCpu(s.current.proc))
    && (forall pid :: Places(s, pid) <= 1)
    && Places(s, s.idle.pid) == 0
  }

  // ----- Runs -----

  datatype Event = TimerEvent | EnqueueEvent(pid: nat) | BlockEvent | UnblockEvent(pid: nat)

  /** A new process brings a pid of its own; everything else can happen at any time. */
  predicate Enabled(s: Sched, e: Event)
    requires |s.queues| == 5
  {
    e.EnqueueEvent? ==> Places(s, e.pid) == 0 && e.pid != s.idle.pid
  }

  /** Blocking is taken together with the pick that has to follow it. */
  function Step(s: Sched, e: Event): Sched
    requires Inv(s)
  {
    match e
    case TimerEvent => Timer(s)
    case EnqueueEvent(pid) => Enqueue(s, Fresh(pid))
    case BlockEvent => Pick(Block(s))
    case UnblockEvent(pid) => Unblock(s, pid)
  }
}
