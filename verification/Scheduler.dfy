/** The scheduler as the source has it: control blocks updated in place and moved between lists. */
module Scheduler {
  import opened IntrusiveList
  import opened SchedSpec
  import opened SchedInvariant

  class ProcessControlBlock {
    const pid: nat
    const schedNode: ListNode
    var state: ProcState
    var priority: nat
    var quantumRemaining: nat
    var ageTicks: nat

    /** The scheduler fields as create_pcb leaves them. */
    constructor (pid: nat)
      ensures Snap() == Fresh(pid)
      ensures fresh(schedNode) && schedNode.home == null && schedNode.container == this
    {
      this.pid := pid;
      schedNode := new ListNode();
      state, priority, quantumRemaining, ageTicks := Ready, 0, 40, 0;
      new;
      schedNode.container := this;
    }

    ghost function Snap(): Proc
      reads this
    {
      Proc(pid, state, priority, quantumRemaining, ageTicks)
    }
  }

  /** container_of for the node embedded in a control block */
  method ContainerOf(node: ListNode) returns (pcb: ProcessControlBlock)
    requires node.container is ProcessControlBlock
    ensures pcb == node.container as ProcessControlBlock
  {
    pcb := node.container as ProcessControlBlock;
  }

  /** The context switch asked for by the timer handler; the switch itself is not modelled. */
  datatype Switch =
    | NoSwitch
    | Bootstrap(next: ProcessControlBlock)
    | ContextSwitch(prev: ProcessControlBlock, next: ProcessControlBlock)

  class Scheduler {
    /** The four priority queues and, at WAITING_QUEUE, the waiting queue. */
    const queues: seq<List>
    const idlePcb: ProcessControlBlock
    var currentPcb: ProcessControlBlock?

    /** The value of the scheduler. */
    ghost var view: Sched
    /** Every list node and every control block known to the scheduler. */
    ghost var links: set<ListNode>
    ghost var pcbs: set<ProcessControlBlock>

    /** A control block of the scheduler's that is not linked into any list. */
    ghost predicate Loose(pcb: ProcessControlBlock)
      reads this`links, this`pcbs, pcb.schedNode`container, pcb.schedNode`home
    {
      pcb in pcbs && pcb.schedNode in links &&
      pcb.schedNode.container == pcb && pcb.schedNode.home == null
    }

    /** Node n is embedded in a control block other than idle that shows p. */
    ghost predicate Shows(n: ListNode, p: Proc)
      reads this`links, this`pcbs, links`container, pcbs
    {
      n in links && n.container is ProcessControlBlock &&
      var pcb := n.container as ProcessControlBlock;
      pcb in pcbs && pcb != idlePcb && pcb.schedNode == n && pcb.Snap() == p
    }

    ghost predicate ShowsAll(nodes: seq<ListNode>, ps: seq<Proc>)
      reads this`links, this`pcbs, links`container, pcbs
    {
      |nodes| == |ps| && forall k :: 0 <= k < |nodes| ==> Shows(nodes[k], ps[k])
    }

    static ghost predicate AllIn(nodes: seq<ListNode>, links: set<ListNode>)
    {
      forall k :: 0 <= k < |nodes| ==> nodes[k] in links
    }

    ghost predicate Lists()
      reads this`links, queues, links
      ensures Lists() ==> |queues| == 5
      ensures Lists() ==> forall i :: 0 <= i < 5 ==> queues[i].size == |queues[i].nodes|
    {
      && |queues| == 5
      && (forall i, j :: 0 <= i < j < 5 ==> queues[i] != queues[j])
      && (forall i :: 0 <= i < 5 ==>
            queues[i].root in links && AllIn(queues[i].nodes, links) && queues[i].Valid())
    }

    /** The lists hold what the view says. */
    ghost predicate Linked()
      reads this`view, this`links, this`pcbs, queues, links, pcbs, idlePcb, idlePcb.schedNode
      ensures Linked() ==> |queues| == 5 && |view.queues| == 5 && Lists()
      ensures Linked() ==> forall i :: 0 <= i < 5 ==> |queues[i].nodes| == |view.queues[i]|
      ensures Linked() ==> Loose(idlePcb) && idlePcb.Snap() == view.idle
    {
      && Lists()
      && |view.queues| == 5
      && (forall i :: 0 <= i < 5 ==> ShowsAll(queues[i].nodes, view.queues[i]))
      && Loose(idlePcb) && idlePcb.Snap() == view.idle
    }

    ghost predicate CurrentOk()
      reads this`view, this`currentPcb, this`links, this`pcbs
      reads if currentPcb == null then {} else {currentPcb}
      reads (if currentPcb == null then {} else {currentPcb.schedNode})`container
      reads (if currentPcb == null then {} else {currentPcb.schedNode})`home
    {
      match view.current
      case Nobody => currentPcb == null
      case Idle => currentPcb == idlePcb
      case Busy(p) =>
        currentPcb != null && currentPcb != idlePcb && Loose(currentPcb) && currentPcb.Snap() == p
    }

    ghost predicate Valid()
      reads *
    {
      Linked() && CurrentOk() && Inv(view)
    }

    /** sched_init; the address space of the idle process belongs to the paging model */
    constructor (idle: ProcessControlBlock)
      requires idle.schedNode.container == idle && idle.schedNode.home == null
      ensures Valid() && view == Init(idle.Snap())
    {
      var lists, roots := NewLists();
      queues := lists;
      idlePcb := idle;
      currentPcb := null;
      view := Init(idle.Snap());
      links := roots + {idle.schedNode};
      pcbs := {idle};
      new;
      hide List.Valid, Inv, Ring;
      InitInv(idle.Snap());
    }

    static method NewLists() returns (lists: seq<List>, ghost roots: set<ListNode>)
      ensures |lists| == 5 && fresh(lists) && fresh(roots)
      ensures forall i, j :: 0 <= i < j < 5 ==> lists[i] != lists[j]
      ensures forall i :: 0 <= i < 5 ==> lists[i].Valid() && lists[i].nodes == [] && lists[i].root in roots
    {
      hide List.Valid;
      lists, roots := [], {};
      for i := 0 to 5
        invariant |lists| == i && fresh(lists) && fresh(roots)
        invariant forall i, j :: 0 <= i < j < |lists| ==> lists[i] != lists[j]
        invariant forall j :: 0 <= j < i ==> lists[j].Valid() && lists[j].nodes == [] && lists[j].root in roots
      {
        var l := new List();
        lists, roots := lists + [l], roots + {l.root};
      }
    }

    /** Different lists have no node in common, and an unlinked node is in none of them. */
    lemma Apart(i: nat, j: nat, node: ListNode)
      requires Lists() && i < 5 && j < 5 && i != j && (node.home == null || node.home == queues[i])
      ensures queues[i] != queues[j] && queues[i].root != queues[j].root && queues[j].root != node
      ensures forall k :: 0 <= k < |queues[i].nodes| ==> queues[i].nodes[k] != queues[j].root
      ensures forall k :: 0 <= k < |queues[j].nodes| ==>
                queues[j].nodes[k] != queues[i].root && queues[j].nodes[k] != node
      ensures forall k, m :: 0 <= k < |queues[i].nodes| && 0 <= m < |queues[j].nodes| ==>
                queues[i].nodes[k] != queues[j].nodes[m]
    {
      assert forall k :: 0 <= k < |queues[i].nodes| ==> queues[i].nodes[k].home == queues[i];
      assert forall k :: 0 <= k < |queues[j].nodes| ==> queues[j].nodes[k].home == queues[j];
    }

    lemma Member(i: nat, k: nat)
      requires Lists() && i < 5 && k < |queues[i].nodes|
      ensures queues[i].nodes[k] in links && queues[i].nodes[k].home == queues[i]
      ensures queues[i].nodes[k] != queues[i].root
    {
    }

    static lemma AllInWithout(nodes: seq<ListNode>, k: nat, links: set<ListNode>)
      requires k < |nodes| && AllIn(nodes, links)
      ensures AllIn(IntrusiveList.Without(nodes, k), links)
    {
    }

    // ----- Moving one control block -----

    /** list_push_tail on queue i: the other lists are not disturbed. */
    method Append(i: nat, node: ListNode)
      requires Lists() && i < 5 && node in links && node.home == null
      modifies queues`size, queues`nodes, links`next, links`prev, node`home
      ensures Lists() && queues[i].nodes == old(queues[i].nodes) + [node]
      ensures forall j :: 0 <= j < 5 && j != i ==> queues[j].nodes == old(queues[j].nodes)
    {
      hide List.Valid;
      forall j | 0 <= j < 5 && j != i { Apart(i, j, node); }
      queues[i].PushTail(node);
      assert forall j :: 0 <= j < 5 ==> queues[j].Valid();
    }

    /** list_remove_node on queue i: the other lists are not disturbed. */
    method Take(i: nat, node: ListNode, ghost k: nat)
      requires Lists() && i < 5 && k < |queues[i].nodes| && queues[i].nodes[k] == node
      modifies queues`size, queues`nodes, links`next, links`prev, node`home
      ensures Lists() && queues[i].nodes == IntrusiveList.Without(old(queues[i].nodes), k)
      ensures forall j :: 0 <= j < 5 && j != i ==> queues[j].nodes == old(queues[j].nodes)
      ensures node.home == null
    {
      hide List.Valid;
      Member(i, k);
      forall j | 0 <= j < 5 && j != i { Apart(i, j, node); }
      ghost var was := queues[i].nodes;
      var _ := queues[i].RemoveNode(node, k);
      AllInWithout(was, k, links);
    }

    /** Links a loose control block at the tail of queue i. */
    method Link(i: nat, pcb: ProcessControlBlock)
      requires Linked() && i < 5 && Loose(pcb) && pcb != idlePcb
      modifies this`view, queues`size, queues`nodes, links`next, links`prev, pcb.schedNode`home
      ensures Linked() && view == Push(old(view), i, pcb.Snap())
      ensures forall j :: 0 <= j < 5 && j != i ==> queues[j].nodes == old(queues[j].nodes)
    {
      hide List.Valid, Lists, ShowsAll;
      ghost var nodes, ps := queues[i].nodes, view.queues[i];
      ShowsAppend(nodes, ps, pcb);
      Append(i, pcb.schedNode);
      view := Push(view, i, pcb.Snap());
      assert ShowsAll(nodes + [pcb.schedNode], ps + [pcb.Snap()]);
    }

    /** Takes the k-th control block out of queue i. */
    method Unlink(i: nat, pcb: ProcessControlBlock, ghost k: nat)
      requires Linked() && i < 5 && k < |queues[i].nodes| && queues[i].nodes[k] == pcb.schedNode
      requires pcb.schedNode.container == pcb
      modifies this`view, queues`size, queues`nodes, links`next, links`prev, pcb.schedNode`home
      ensures Linked() && Loose(pcb) && pcb != idlePcb
      ensures view == old(view).(queues := old(view).queues[i := SchedSpec.Without(old(view).queues[i], k)])
      ensures pcb.Snap() == old(view).queues[i][k]
      ensures queues[i].nodes == IntrusiveList.Without(old(queues[i].nodes), k)
    {
      hide List.Valid, Lists, ShowsAll;
      Member(i, k);
      ghost var nodes, ps := queues[i].nodes, view.queues[i];
      ShownAt(i, k);
      ShowsWithout(nodes, ps, k);
      Take(i, pcb.schedNode, k);
      view := view.(queues := view.queues[i := SchedSpec.Without(ps, k)]);
      assert ShowsAll(IntrusiveList.Without(nodes, k), SchedSpec.Without(ps, k));
    }

    lemma ShowsAppend(nodes: seq<ListNode>, ps: seq<Proc>, pcb: ProcessControlBlock)
      requires ShowsAll(nodes, ps) && Loose(pcb) && pcb != idlePcb
      ensures ShowsAll(nodes + [pcb.schedNode], ps + [pcb.Snap()])
    {
    }

    lemma ShowsWithout(nodes: seq<ListNode>, ps: seq<Proc>, k: nat)
      requires ShowsAll(nodes, ps) && k < |nodes|
      ensures ShowsAll(IntrusiveList.Without(nodes, k), SchedSpec.Without(ps, k))
    {
      var r, qs := IntrusiveList.Without(nodes, k), SchedSpec.Without(ps, k);
      forall j | 0 <= j < |r|
        ensures Shows(r[j], qs[j])
      {
        var m := if j < k then j else j + 1;
        assert Shows(nodes[m], ps[m]);
      }
    }

    // ----- Updating one control block -----

    /** Updating a loose control block changes nothing that the lists show. */
    twostate lemma LinkedKept(pcb: ProcessControlBlock)
      requires old(Linked()) && old(Loose(pcb))
      requires view.queues == old(view.queues) && view.idle == idlePcb.Snap()
      requires unchanged(`links, `pcbs) && unchanged(queues) && unchanged(links)
      requires forall b :: b in pcbs && b != pcb ==> unchanged(b)
      ensures Linked() && Loose(pcb)
    {
      hide List.Valid;
      assert Lists();
      assert Loose(pcb);
      assert Loose(idlePcb);
      forall i | 0 <= i < 5
        ensures ShowsAll(queues[i].nodes, view.queues[i])
      {
        forall k | 0 <= k < |queues[i].nodes|
          ensures Shows(queues[i].nodes[k], view.queues[i][k])
        {
          assert old(Shows(queues[i].nodes[k], view.queues[i][k]));
          Member(i, k);
        }
      }
    }

    /** The control blocks at different places are different. */
    lemma Different(i: nat, k: nat, j: nat, m: nat)
      requires Lists() && i < 5 && j < 5 && k < |queues[i].nodes| && m < |queues[j].nodes|
      requires i != j || k != m
      ensures queues[i].nodes[k] != queues[j].nodes[m]
    {
      if i != j {
        Member(i, k);
        Member(j, m);
      } else {
        assert Distinct(queues[i].nodes);
      }
    }

    /** Updating one queued control block changes what is shown at its place and nothing else. */
    twostate lemma LinkedUpdated(at: (nat, nat))
      requires old(Linked()) && at.0 < 5 && at.1 < |queues[at.0].nodes|
      requires queues[at.0].nodes[at.1].container is ProcessControlBlock
      requires |old(view.queues[at.0])| == |queues[at.0].nodes|
      requires var pcb := queues[at.0].nodes[at.1].container as ProcessControlBlock;
               && view.queues == old(view.queues)[at.0 := old(view.queues)[at.0][at.1 := pcb.Snap()]]
               && (forall b :: b in old(pcbs) && b != pcb ==> unchanged(b))
      requires view.idle == old(view.idle)
      requires unchanged(`links, `pcbs) && unchanged(queues) && unchanged(links)
      ensures Linked()
    {
      hide List.Valid;
      assert Lists();
      var (i, k) := at;
      assert old(Shows(queues[i].nodes[k], view.queues[i][k]));
      assert Loose(idlePcb);
      forall j | 0 <= j < 5
        ensures ShowsAll(queues[j].nodes, view.queues[j])
      {
        forall m | 0 <= m < |queues[j].nodes|
          ensures Shows(queues[j].nodes[m], view.queues[j][m])
        {
          assert old(Shows(queues[j].nodes[m], view.queues[j][m]));
          if i != j || k != m {
            Different(i, k, j, m);
          }
        }
      }
    }

    // ----- The operations -----

    /** sched_enqueue */
    method SchedEnqueue(pcb: ProcessControlBlock?)
      requires Linked()
      requires pcb != null ==> Loose(pcb) && pcb != idlePcb && pcb.priority < MLFQ_LEVELS
      modifies this`view, queues`size, queues`nodes, links`next, links`prev
      modifies (if pcb == null then {} else {pcb.schedNode})`home
      ensures Linked()
      ensures view == if pcb == null then old(view) else Enqueue(old(view), pcb.Snap())
    {
      hide List.Valid, Lists;
      if pcb == null {
        return;
      }
      match pcb.state {
        case Ready => Link(pcb.priority, pcb);
        case Waiting => Link(WAITING_QUEUE, pcb);
        case _ =>
      }
    }

    /**
      The body of the ageing walk for the k-th node of queue i; returns the node to go on with.  The
      unlinked control block `other` is left alone.
     */
    method AgeNode(i: nat, node: ListNode, ghost k: nat, ghost other: ProcessControlBlock)
      returns (nextNode: ListNode)
      requires Linked() && 1 <= i < MLFQ_LEVELS && Levelled(view.queues)
      requires k < |queues[i].nodes| && queues[i].nodes[k] == node && Loose(other)
      modifies this`view, queues`size, queues`nodes, links`next, links`prev, links`home
      modifies pcbs`ageTicks, pcbs`priority, pcbs`quantumRemaining
      ensures Linked() && view == old(view).(queues := AgeStep(old(view).queues, i, k))
      ensures var j := if Promotes(old(view).queues[i][k]) then k else k + 1;
              nextNode == Ring(queues[i].root, queues[i].nodes, j)
      ensures Loose(other) && unchanged(other)
    {
      hide List.Valid, Lists, Linked, ShowsAll, AgeStep;
      Member(i, k);
      nextNode := NextOf(i, node, k);
      ShownAt(i, k);
      var waitingPcb := ContainerOf(node);
      AgeStepParts(view.queues, i, k);
      AgeTick(i, waitingPcb, k);
      if waitingPcb.ageTicks >= AGE_TICK_MAX {
        RingWithoutAt(queues[i].root, queues[i].nodes, k);
        AgePromote(i, waitingPcb, k);
      }
    }

    lemma ShownAt(i: nat, k: nat)
      requires Linked() && i < 5 && k < |queues[i].nodes|
      ensures Shows(queues[i].nodes[k], view.queues[i][k])
    {
    }

    static lemma RingWithoutAt(root: ListNode, s: seq<ListNode>, k: nat)
      requires k < |s|
      ensures Ring(root, s, k + 1) == Ring(root, IntrusiveList.Without(s, k), k)
    {
    }

    /** One more tick of age for the k-th control block of queue i. */
    method AgeTick(i: nat, pcb: ProcessControlBlock, ghost k: nat)
      requires Linked() && i < 5 && k < |queues[i].nodes| && queues[i].nodes[k] == pcb.schedNode
      requires pcb.schedNode.container == pcb
      modifies this`view, pcb`ageTicks
      ensures Linked() && pcb.Snap() == Older(old(view).queues[i][k])
      ensures view == old(view).(queues :=
                old(view).queues[i := old(view).queues[i][k := Older(old(view).queues[i][k])]])
    {
      hide List.Valid, Lists;
      Member(i, k);
      assert Shows(queues[i].nodes[k], view.queues[i][k]);
      pcb.ageTicks := Inc32(pcb.ageTicks);
      view := view.(queues := view.queues[i := view.queues[i][k := pcb.Snap()]]);
      LinkedUpdated((i, k));
    }

    /** The next pointer of the k-th node. */
    method NextOf(i: nat, node: ListNode, ghost k: nat) returns (nextNode: ListNode)
      requires Lists() && i < 5 && k < |queues[i].nodes| && queues[i].nodes[k] == node
      ensures nextNode == Ring(queues[i].root, queues[i].nodes, k + 1)
    {
      nextNode := node.next;
    }

    /** The promotion inside the ageing walk. */
    method AgePromote(i: nat, waitingPcb: ProcessControlBlock, ghost k: nat)
      requires Linked() && 1 <= i < MLFQ_LEVELS
      requires k < |queues[i].nodes| && queues[i].nodes[k] == waitingPcb.schedNode
      requires waitingPcb.schedNode.container == waitingPcb && waitingPcb.priority == i
      modifies this`view, queues`size, queues`nodes, links`next, links`prev
      modifies waitingPcb`ageTicks, waitingPcb`priority, waitingPcb`quantumRemaining, waitingPcb.schedNode`home
      ensures Linked()
      ensures var q := old(view).queues;
              view == old(view).(queues :=
                q[i := SchedSpec.Without(q[i], k)][i - 1 := q[i - 1] + [Promotion(q[i][k])]])
      ensures queues[i].nodes == IntrusiveList.Without(old(queues[i].nodes), k)
    {
      hide List.Valid, Lists, Linked, ShowsAll;
      ShownAt(i, k);
      Unlink(i, waitingPcb, k);
      label unlinked:
      waitingPcb.ageTicks := 0;
      waitingPcb.priority := Dec32(waitingPcb.priority);
      waitingPcb.quantumRemaining := Quantum(waitingPcb.priority);
      LinkedKept@unlinked(waitingPcb);
      Link(waitingPcb.priority, waitingPcb);
    }

    /** The ageing walk over priority queue i, which unlinks nodes of the list it walks over. */
    method AgeQueue(i: nat, ghost other: ProcessControlBlock)
      requires Linked() && 1 <= i < MLFQ_LEVELS && Levelled(view.queues) && Loose(other)
      modifies this`view, queues`size, queues`nodes, links`next, links`prev, links`home
      modifies pcbs`ageTicks, pcbs`priority, pcbs`quantumRemaining
      ensures Linked() && view == old(view).(queues := AgeLevel(old(view).queues, i))
      ensures Loose(other) && unchanged(other)
    {
      hide List.Valid, Lists, Linked, Walk, AgeLevel, AgeStep, Survivors;
      ghost var base, m := view.queues, 0;
      var currentNode := FirstOf(i);
      WalkStart(base, i);
      while currentNode != queues[i].root
        invariant Linked() && Loose(other) && unchanged(other)
        invariant m <= |base[i]| && view == old(view).(queues := Walk(base, i, m))
        invariant currentNode == Ring(queues[i].root, queues[i].nodes, |Survivors(base[i][..m])|)
        decreases |base[i]| - m
      {
        WalkStep(base, i, m);
        currentNode := AgeNode(i, currentNode, |Survivors(base[i][..m])|, other);
        m := m + 1;
      }
      if |Survivors(base[i][..m])| < |queues[i].nodes| {
        Member(i, |Survivors(base[i][..m])|);
      }
      WalkEnd(base, i, m);
    }

    /** root.next of queue i */
    method FirstOf(i: nat) returns (node: ListNode)
      requires Lists() && i < 5
      ensures node == Ring(queues[i].root, queues[i].nodes, 0)
    {
      node := queues[i].root.next;
    }

    /** sched_tick */
    method SchedTick()
      requires Valid()
      modifies this`view, this`currentPcb, queues`size, queues`nodes, links`next, links`prev, links`home
      modifies pcbs`state, pcbs`ageTicks, pcbs`priority, pcbs`quantumRemaining
      ensures Linked() && CurrentOk() && Levelled(old(view).queues) && view == Tick(old(view))
      ensures currentPcb == null || currentPcb == old(currentPcb)
    {
      hide List.Valid, Lists, Linked, ShowsAll, AgeAll, Inv;
      RunningQuantum(view);
      if currentPcb == null {
        return;
      }
      var current := currentPcb;
      if current == idlePcb {
        return;
      }
      SpendQuantum(current);
      if current.quantumRemaining == 0 {
        Expire(current);
        return;
      }
      AgeWaiting(current);
    }

    /** The ageing walk over levels 1 to 3; the running control block is left alone. */
    method AgeWaiting(ghost other: ProcessControlBlock)
      requires Linked() && Levelled(view.queues) && Loose(other)
      modifies this`view, queues`size, queues`nodes, links`next, links`prev, links`home
      modifies pcbs`ageTicks, pcbs`priority, pcbs`quantumRemaining
      ensures Linked() && view == old(view).(queues := AgeAll(old(view).queues))
      ensures Loose(other) && unchanged(other)
    {
      hide List.Valid, Lists, Linked, ShowsAll, AgeLevel;
      for i := 1 to MLFQ_LEVELS
        invariant Linked() && Levelled(view.queues) && Loose(other) && unchanged(other)
        invariant view == old(view).(queues := AgedBelow(old(view).queues, i))
      {
        AgeQueue(i, other);
      }
      AgedBelowAll(old(view).queues);
    }

    /** The running process has one tick of its quantum less. */
    method SpendQuantum(current: ProcessControlBlock)
      requires Linked() && CurrentOk() && view.current.Busy? && current == currentPcb
      modifies this`view, current`quantumRemaining
      ensures Linked() && CurrentOk()
      ensures var p := old(view).current.proc;
              view == old(view).(current := Busy(p.(quantum := Dec32(p.quantum))))
    {
      hide List.Valid, Lists, ShowsAll;
      current.quantumRemaining := Dec32(current.quantumRemaining);
      view := view.(current := Busy(current.Snap()));
      LinkedKept(current);
    }

    /** The view names another current process. */
    ghost method Point(c: Current)
      requires Linked()
      modifies this`view
      ensures Linked() && view == old(view).(current := c)
    {
      hide List.Valid, Lists, ShowsAll;
      view := view.(current := c);
    }

    /** The branch of sched_tick for a quantum that is used up. */
    method Expire(current: ProcessControlBlock)
      requires Linked() && CurrentOk() && view.current.Busy? && current == currentPcb
      requires current.priority < MLFQ_LEVELS
      modifies this`view, this`currentPcb, queues`size, queues`nodes, links`next, links`prev
      modifies current`state, current`priority, current`quantumRemaining, current.schedNode`home
      ensures Linked() && CurrentOk()
      ensures view == Enqueue(old(view), Expired(old(view).current.proc)).(current := Nobody)
    {
      hide List.Valid, Lists, ShowsAll, Linked, Enqueue;
      current.state := Ready;
      if current.priority < MLFQ_LEVELS - 1 {
        current.priority := current.priority + 1;
      }
      current.quantumRemaining := Quantum(current.priority);
      LinkedKept(current);
      SchedEnqueue(current);
      currentPcb := null;
      Point(Nobody);
    }

    /** sched_pick_next_process */
    method SchedPickNextProcess()
      requires Linked()
      modifies this`view, this`currentPcb, queues`size, queues`nodes, links`next, links`prev, links`home
      modifies pcbs`state
      ensures Linked() && CurrentOk() && view == Pick(old(view)) && currentPcb != null
    {
      hide List.Valid, Lists, ShowsAll, Linked;
      var i := 0;
      while i < MLFQ_LEVELS && queues[i].size == 0
        invariant i <= MLFQ_LEVELS && FirstReady(view.queues, i) == FirstReady(view.queues, 0)
      {
        i := i + 1;
      }
      var nextPcb := idlePcb;
      if i < MLFQ_LEVELS {
        Member(i, 0);
        nextPcb := PopFirst(i);
      }
      PickParts(old(view));
      label picked:
      currentPcb := nextPcb;
      nextPcb.state := Running;
      view := if nextPcb == idlePcb
              then view.(current := Idle, idle := nextPcb.Snap())
              else view.(current := Busy(nextPcb.Snap()));
      LinkedKept@picked(nextPcb);
    }

    /** Takes the control block at the head of a queue that is not empty. */
    method PopFirst(i: nat) returns (pcb: ProcessControlBlock)
      requires Linked() && i < 5 && queues[i].nodes != []
      modifies this`view, queues`size, queues`nodes, links`next, links`prev, {queues[i].nodes[0]}`home
      ensures Linked() && Loose(pcb) && pcb != idlePcb && pcb.Snap() == old(view).queues[i][0]
      ensures view == old(view).(queues := old(view).queues[i := SchedSpec.Without(old(view).queues[i], 0)])
    {
      hide List.Valid, Lists, ShowsAll;
      ghost var nodes, ps := queues[i].nodes, view.queues[i];
      Member(i, 0);
      ShownAt(i, 0);
      ShowsWithout(nodes, ps, 0);
      var node := TakeHead(i);
      pcb := ContainerOf(node);
      view := view.(queues := view.queues[i := SchedSpec.Without(ps, 0)]);
    }

    /** list_pop_head on queue i: the other lists are not disturbed. */
    method TakeHead(i: nat) returns (node: ListNode)
      requires Lists() && i < 5 && queues[i].nodes != []
      modifies queues`size, queues`nodes, links`next, links`prev, {queues[i].nodes[0]}`home
      ensures Lists() && node == old(queues[i].nodes[0]) && node.home == null
      ensures queues[i].nodes == IntrusiveList.Without(old(queues[i].nodes), 0)
      ensures forall j :: 0 <= j < 5 && j != i ==> queues[j].nodes == old(queues[j].nodes)
    {
      hide List.Valid;
      Member(i, 0);
      ghost var was := queues[i].nodes;
      forall j | 0 <= j < 5 && j != i { Apart(i, j, was[0]); }
      node := queues[i].PopHead();
      WithoutHead(was);
      AllInWithout(was, 0, links);
    }

    /** sched_block_process, as written: the blocked control block is left current */
    method SchedBlockProcess()
      requires Valid()
      modifies this`view, queues`size, queues`nodes, links`next, links`prev, links`home, pcbs`state
      ensures Linked() && currentPcb == old(currentPcb)
      ensures view == Block(old(view))
    {
      hide List.Valid, Lists, ShowsAll, Inv, Linked;
      InvPriority(view);
      if currentPcb == null || currentPcb == idlePcb {
        return;
      }
      currentPcb.state := Waiting;
      view := view.(current := Busy(currentPcb.Snap()));
      LinkedKept(currentPcb);
      SchedEnqueue(currentPcb);
    }

    /** sched_unblock_process */
    method SchedUnblockProcess(pcb: ProcessControlBlock?, ghost k: nat)
      requires Valid()
      requires pcb != null ==> pcb in pcbs && pcb != idlePcb
      requires pcb != null && pcb.state == Waiting ==>
                 k < |queues[WAITING_QUEUE].nodes| && queues[WAITING_QUEUE].nodes[k] == pcb.schedNode &&
                 pcb.schedNode.container == pcb
      modifies this`view, queues`size, queues`nodes, links`next, links`prev, links`home
      modifies pcbs`state, pcbs`ageTicks, pcbs`quantumRemaining
      ensures Valid()
      ensures if pcb == null || old(pcb.state) != Waiting then view == old(view)
              else Wakeable(old(view)) && view == Unblock(old(view), pcb.pid)
    {
      hide List.Valid, Lists, ShowsAll, Inv, Linked, Unblock;
      if pcb == null || pcb.state != Waiting {
        return;
      }
      StepInv(view, UnblockEvent(pcb.pid));
      Awaken(pcb, k);
    }

    /** The part of sched_unblock_process after the test of the state. */
    method Awaken(pcb: ProcessControlBlock, ghost k: nat)
      requires Valid() && pcb in pcbs && pcb != idlePcb && pcb.state == Waiting
      requires k < |queues[WAITING_QUEUE].nodes| && queues[WAITING_QUEUE].nodes[k] == pcb.schedNode
      requires pcb.schedNode.container == pcb
      modifies this`view, queues`size, queues`nodes, links`next, links`prev, links`home
      modifies pcb`state, pcb`ageTicks, pcb`quantumRemaining
      ensures Linked() && CurrentOk() && Wakeable(old(view)) && view == Unblock(old(view), pcb.pid)
    {
      hide List.Valid, Lists, ShowsAll, Inv, Linked;
      WaitingFacts(view, k);
      Member(WAITING_QUEUE, k);
      ShownAt(WAITING_QUEUE, k);
      Unlink(WAITING_QUEUE, pcb, k);
      Wake(pcb);
    }

    /** The part of sched_unblock_process after the removal from the waiting queue. */
    method Wake(pcb: ProcessControlBlock)
      requires Linked() && Loose(pcb) && pcb != idlePcb && pcb.priority < MLFQ_LEVELS
      modifies this`view, queues`size, queues`nodes, links`next, links`prev
      modifies pcb`state, pcb`ageTicks, pcb`quantumRemaining, pcb.schedNode`home
      ensures Linked() && view == Enqueue(old(view), Woken(old(pcb.Snap())))
    {
      hide List.Valid, Lists, ShowsAll, Linked;
      pcb.state := Ready;
      pcb.ageTicks := 0;
      pcb.quantumRemaining := Quantum(pcb.priority);
      LinkedKept(pcb);
      SchedEnqueue(pcb);
    }

    /** sched_timer_handler; the result says which context switch is made */
    method SchedTimerHandler() returns (switch: Switch)
      requires Valid()
      modifies this`view, this`currentPcb, queues`size, queues`nodes, links`next, links`prev, links`home
      modifies pcbs`state, pcbs`ageTicks, pcbs`priority, pcbs`quantumRemaining
      ensures Valid() && view == old(Step(view, TimerEvent)) && currentPcb != null
      ensures var expires := old(view.current.Busy?) && old(view.current.proc.quantum) == 1;
              switch == if old(currentPcb) == null then Bootstrap(currentPcb)
                        else if expires then ContextSwitch(old(currentPcb), currentPcb)
                        else NoSwitch
      ensures switch == NoSwitch ==> currentPcb == old(currentPcb)
    {
      hide List.Valid, Lists, ShowsAll, Inv, Linked, AgeAll;
      StepInv(view, TimerEvent);
      RunningQuantum(view);
      var oldPcb := currentPcb;
      SchedTick();
      switch := NoSwitch;
      if currentPcb == null || oldPcb == null {
        SchedPickNextProcess();
        switch := if oldPcb == null then Bootstrap(currentPcb) else ContextSwitch(oldPcb, currentPcb);
      }
    }

    /** A process blocks and the next one is picked. */
    method BlockAndPick()
      requires Valid()
      modifies this`view, this`currentPcb, queues`size, queues`nodes, links`next, links`prev, links`home
      modifies pcbs`state
      ensures Valid() && view == old(Step(view, BlockEvent)) && currentPcb != null
    {
      hide List.Valid, Lists, ShowsAll, Inv, Linked;
      StepInv(view, BlockEvent);
      SchedBlockProcess();
      SchedPickNextProcess();
    }

    /** sched_enqueue of a new process */
    method EnqueueNew(pcb: ProcessControlBlock)
      requires Valid() && pcb.Snap() == Fresh(pcb.pid) && Enabled(view, EnqueueEvent(pcb.pid))
      requires pcb !in pcbs && pcb.schedNode.container == pcb && pcb.schedNode.home == null
      modifies this`view, this`links, this`pcbs, queues`size, queues`nodes, links`next, links`prev
      modifies pcb.schedNode`next, pcb.schedNode`prev, pcb.schedNode`home
      ensures Valid() && view == old(Step(view, EnqueueEvent(pcb.pid)))
      ensures pcbs == old(pcbs) + {pcb} && links == old(links) + {pcb.schedNode}
    {
      hide List.Valid, Lists, ShowsAll, Inv, Linked, Step, Enqueue, Enabled;
      StepInv(view, EnqueueEvent(pcb.pid));
      EnqueueStep(view, pcb.pid);
      Adopt(pcb);
      SchedEnqueue(pcb);
    }

    /** A new control block becomes known. */
    ghost method Adopt(pcb: ProcessControlBlock)
      requires Linked() && CurrentOk()
      modifies this`links, this`pcbs
      ensures Linked() && CurrentOk()
      ensures pcbs == old(pcbs) + {pcb} && links == old(links) + {pcb.schedNode}
    {
      hide List.Valid;
      forall i | 0 <= i < 5
        ensures AllIn(queues[i].nodes, links + {pcb.schedNode})
      {
        assert AllIn(queues[i].nodes, links);
      }
      links := links + {pcb.schedNode};
      pcbs := pcbs + {pcb};
      forall i | 0 <= i < 5
        ensures ShowsAll(queues[i].nodes, view.queues[i])
      {
        assert old(ShowsAll(queues[i].nodes, view.queues[i]));
        forall k | 0 <= k < |queues[i].nodes|
          ensures Shows(queues[i].nodes[k], view.queues[i][k])
        {
          assert old(Shows(queues[i].nodes[k], view.queues[i][k]));
        }
      }
    }
  }

  // ----- The ageing walk as a loop over positions -----

  function AgeStep(queues: seq<seq<Proc>>, i: nat, k: nat): seq<seq<Proc>>
    requires 1 <= i < MLFQ_LEVELS && Levelled(queues) && k < |queues[i]|
  {
    var p := queues[i][k];
    if Promotes(p) then
      queues[i := SchedSpec.Without(queues[i], k)][i - 1 := queues[i - 1] + [Promotion(p)]]
    else
      queues[i := queues[i][k := Older(p)]]
  }

  /** A step of the walk ages the process first and promotes the aged one. */
  lemma AgeStepParts(queues: seq<seq<Proc>>, i: nat, k: nat)
    requires 1 <= i < MLFQ_LEVELS && Levelled(queues) && k < |queues[i]|
    ensures var p, aged := queues[i][k], queues[i := queues[i][k := Older(queues[i][k])]];
            AgeStep(queues, i, k) ==
            if Older(p).age >= AGE_TICK_MAX then
              aged[i := SchedSpec.Without(aged[i], k)][i - 1 := aged[i - 1] + [Promotion(aged[i][k])]]
            else aged
  {
    var aged := queues[i][k := Older(queues[i][k])];
    assert SchedSpec.Without(aged, k) == SchedSpec.Without(queues[i], k);
  }

  /** The queues after the walks over levels 1 to i - 1. */
  ghost function AgedBelow(queues: seq<seq<Proc>>, i: nat): (r: seq<seq<Proc>>)
    requires 1 <= i <= MLFQ_LEVELS && Levelled(queues)
    ensures Levelled(r)
  {
    if i == 1 then queues else AgeLevel(AgedBelow(queues, i - 1), i - 1)
  }

  lemma AgedBelowAll(queues: seq<seq<Proc>>)
    requires Levelled(queues)
    ensures AgedBelow(queues, MLFQ_LEVELS) == AgeAll(queues)
  {
    hide AgeLevel;
    assert AgedBelow(queues, 2) == AgeLevel(queues, 1);
    assert AgedBelow(queues, 3) == AgeLevel(AgedBelow(queues, 2), 2);
  }

  lemma WithoutHead<T>(s: seq<T>)
    requires s != []
    ensures IntrusiveList.Without(s, 0) == s[1..]
  {
  }

  lemma EnqueueStep(s: Sched, pid: nat)
    requires Inv(s)
    ensures Step(s, EnqueueEvent(pid)) == Enqueue(s, Fresh(pid)) && Step(s, EnqueueEvent(pid)).current == s.current
  {
  }

  predicate Wakeable(s: Sched)
  {
    |s.queues| == 5 && forall p :: p in s.queues[WAITING_QUEUE] ==> p.priority < MLFQ_LEVELS
  }

  /** What a pick does when the first ready queue is l. */
  lemma PickParts(s: Sched)
    requires |s.queues| == 5
    ensures var l := FirstReady(s.queues, 0);
            l < MLFQ_LEVELS ==>
              Pick(s) == s.(queues := s.queues[l := SchedSpec.Without(s.queues[l], 0)],
                            current := Busy(s.queues[l][0].(state := Running)))
  {
    var l := FirstReady(s.queues, 0);
    if l < MLFQ_LEVELS {
      assert SchedSpec.Without(s.queues[l], 0) == s.queues[l][1..];
    }
  }

  /** A pid stands at one index of the waiting queue only. */
  lemma WaitingFacts(s: Sched, k: nat)
    requires Inv(s) && k < |s.queues[WAITING_QUEUE]|
    ensures Wakeable(s) && IndexOf(s.queues[WAITING_QUEUE], s.queues[WAITING_QUEUE][k].pid) == k
    ensures s.queues[WAITING_QUEUE][k].priority < MLFQ_LEVELS
  {
    InvLevelled(s);
    var w := s.queues[WAITING_QUEUE];
    var pid := w[k].pid;
    assert Places(s, pid) <= 1;
    var j := IndexOf(w, pid);
    if j < k {
      CountWithout(w, k, pid);
      CountMember(SchedSpec.Without(w, k), j);
    }
  }

  lemma RunningQuantum(s: Sched)
    requires Inv(s)
    ensures Levelled(s.queues)
    ensures s.current.Busy? ==> 1 <= s.current.proc.quantum && s.current.proc.priority < MLFQ_LEVELS
  {
    InvLevelled(s);
  }

  lemma InvPriority(s: Sched)
    requires Inv(s)
    ensures |s.queues| == 5 && (s.current.Busy? ==> s.current.proc.priority < MLFQ_LEVELS)
  {
  }

  /** The queues after the first m nodes of queue i have been walked over. */
  ghost function Walk(queues: seq<seq<Proc>>, i: nat, m: nat): (r: seq<seq<Proc>>)
    requires 1 <= i < MLFQ_LEVELS && Levelled(queues) && m <= |queues[i]|
    ensures Levelled(r) && |r[i]| == |Survivors(queues[i][..m])| + |queues[i]| - m
  {
    var done := queues[i][..m];
    SurvivorsLevel(done, i);
    PromotedLevel(done, i);
    queues[i := Survivors(done) + queues[i][m..]][i - 1 := queues[i - 1] + Promoted(done, i)]
  }

  lemma WalkStart(queues: seq<seq<Proc>>, i: nat)
    requires 1 <= i < MLFQ_LEVELS && Levelled(queues)
    ensures Walk(queues, i, 0) == queues && Survivors(queues[i][..0]) == []
  {
    assert queues[i][0..] == queues[i] && Promoted(queues[i][..0], i) == [];
    assert queues[i - 1] + Promoted(queues[i][..0], i) == queues[i - 1];
    assert Survivors(queues[i][..0]) + queues[i][0..] == queues[i];
  }

  lemma WalkEnd(queues: seq<seq<Proc>>, i: nat, m: nat)
    requires 1 <= i < MLFQ_LEVELS && Levelled(queues) && m <= |queues[i]|
    requires |Walk(queues, i, m)[i]| == |Survivors(queues[i][..m])|
    ensures Walk(queues, i, m) == AgeLevel(queues, i)
  {
    assert m == |queues[i]|;
    assert queues[i][..m] == queues[i];
    assert Survivors(queues[i]) + queues[i][m..] == Survivors(queues[i]);
  }

  /** One iteration of the walk: one more process is aged or promoted, and the cursor moves on. */
  lemma WalkStep(queues: seq<seq<Proc>>, i: nat, m: nat)
    requires 1 <= i < MLFQ_LEVELS && Levelled(queues) && m < |queues[i]|
    ensures var r, k := Walk(queues, i, m), |Survivors(queues[i][..m])|;
            && k < |r[i]| && r[i][k] == queues[i][m]
            && AgeStep(r, i, k) == Walk(queues, i, m + 1)
            && |Survivors(queues[i][..m + 1])| == if Promotes(queues[i][m]) then k else k + 1
  {
    var q := queues[i];
    var r, k := Walk(queues, i, m), |Survivors(q[..m])|;
    assert q[..m + 1][..m] == q[..m];
    assert q[m..] == [q[m]] + q[m + 1..];
    var next := Walk(queues, i, m + 1);
    var s := AgeStep(r, i, k);
    if Promotes(q[m]) {
      assert s[i] == Survivors(q[..m]) + q[m + 1..] == next[i];
      assert s[i - 1] == next[i - 1];
    } else {
      assert s[i] == Survivors(q[..m]) + [Older(q[m])] + q[m + 1..] == next[i];
      assert s[i - 1] == next[i - 1];
    }
  }
}
