/** The timer module itself: two linked lists of record numbers, worked on in place. */
module TimerQueue {
  import opened LinkedList
  import opened TimerProtocol

  lemma HeadAndTail(i: nat, rest: seq<nat>)
    ensures ([i] + rest)[0] == i && ([i] + rest)[1..] == rest
  {
  }

  /** The passive list of timer_init. */
  method UnusedTimers() returns (list: List<nat>)
    ensures list.Valid() && fresh(list) && fresh(list.nodes)
    ensures forall j: nat :: multiset(list.Contents())[j] == if j < NUM_TIMERS then 1 else 0
  {
    list := new List(0);
    for i := 0 to NUM_TIMERS
      invariant list.Valid() && fresh(list) && fresh(list.nodes)
      invariant forall j: nat :: multiset(list.Contents())[j] == if j < i then 1 else 0
    {
      ghost var was := list.Contents();
      list.Push(i);
      forall j: nat ensures multiset(list.Contents())[j] == if j < i + 1 then 1 else 0 {
        CountCons(i, was, j);
      }
    }
  }

  class Queue {
    const active: List<nat>
    const passive: List<nat>
    /** The Timer structs; a Timer pointer is an index. */
    var records: seq<Record>
    /** How many timers have been scheduled. */
    var issued: nat
    ghost var log: seq<Event>

    /** timer_init. */
    constructor ()
      ensures Apart() && Fresh(View())
      ensures fresh(active) && fresh(passive) && fresh(active.nodes) && fresh(passive.nodes)
    {
      active := new List(0);
      var unused := UnusedTimers();
      passive := unused;
      records := seq(NUM_TIMERS, _ => Record(0.0, 0.0, false, -1));
      log, issued := [], 0;
    }

    ghost predicate Apart()
      reads this, active, passive, active.nodes, passive.nodes
    {
      && active.Valid() && passive.Valid() && active != passive
      && active.dummyHead !in passive.nodes && passive.dummyHead !in active.nodes
      && forall n :: n in active.nodes ==> n !in passive.nodes
    }

    ghost function View(): Timers
      requires active.nodes != [] && passive.nodes != []
      reads this, active, passive
    {
      Timers(records, active.Contents(), passive.Contents(), log, issued)
    }

    /** The nodes that were there are still there, behind any new ones. */
    twostate predicate Behind()
      reads active, passive
    {
      && EndsWith(active.nodes, old(active.nodes)) && Grown()
    }

    twostate predicate Grown()
      reads active, passive
    {
      && (forall n :: n in active.nodes ==> n in old(active.nodes) || fresh(n))
      && forall n :: n in passive.nodes ==> n in old(passive.nodes) || fresh(n)
    }

    /** A record from the passive list, or else a new one. */
    method Acquire(r: Record) returns (i: nat)
      requires Apart() && InRange(View())
      modifies this`records, passive, passive.dummyHead
      ensures Apart() && i < |records| && Grown()
      ensures var s := old(View());
              if s.passive != [] then
                i == s.passive[0] && i < |s.records| && passive.Contents() == s.passive[1..] && records == s.records[i := r]
              else
                i == |s.records| && passive.Contents() == [] && records == s.records + [r]
    {
      var none := passive.IsEmpty();
      if none {
        i := |records|;
        records := records + [r];
      } else {
        i := passive.Pop();
        HeadAndTail(i, passive.Contents());
        records := records[i := r];
      }
    }

    /** timer_schedule. */
    method Schedule(at: Time, delay: Time)
      requires Apart() && InRange(View())
      modifies this, active, passive, active.dummyHead, passive.dummyHead
      ensures Apart() && View() == Scheduling(old(View()), at, delay) && Behind()
    {
      var i := Acquire(Record(at, delay, false, issued));
      active.Push(i);
      log := log + [Scheduled(issued, at, delay)];
      issued := issued + 1;
    }

    /** timer_cancel. */
    method Cancel(i: nat)
      requires Apart()
      modifies this
      ensures Apart() && View() == Cancelling(old(View()), i)
    {
      if i < |records| {
        log := log + [Cancelled(records[i].ticket)];
        records := records[i := records[i].(hasExpired := true)];
      }
    }

    method Do(a: Action)
      requires Apart() && InRange(View())
      modifies this, active, passive, active.dummyHead, passive.dummyHead
      ensures Apart() && View() == Act(old(View()), a) && Behind()
    {
      match a {
        case Schedule(at, delay) => Schedule(at, delay);
        case Cancel(i) => Cancel(i);
      }
    }

    /** A callback. */
    method DoAll(actions: seq<Action>)
      requires Apart() && InRange(View())
      modifies this, active, passive, active.dummyHead, passive.dummyHead
      ensures Apart() && View() == Acts(old(View()), actions) && Behind()
      decreases |actions|
    {
      if actions != [] {
        ActInRange(View(), actions[0]);
        Do(actions[0]);
        DoAll(actions[1..]);
      }
    }

    /** timer_has_expired. */
    method HasExpired(i: nat, m: Moment)
      requires Apart() && InRange(View()) && i < |records|
      modifies this, active, passive, active.dummyHead, passive.dummyHead
      ensures Apart() && View() == TimerProtocol.Visit(old(View()), i, m) && Behind()
    {
      if !records[i].hasExpired {
        if records[i].started + records[i].delay < m.now {
          log := log + [Fired(records[i].ticket, m.now)];
          records := records[i := records[i].(hasExpired := true)];
          DoAll(m.actions);
        }
      }
    }

    method VisitNode(n: Node<nat>, f: nat -> Moment, k: nat, ghost was: seq<Node<nat>>, ghost visited: seq<nat>, ghost goal: Timers)
      returns (next: Node?<nat>)
      requires Apart() && InRange(View()) && n.data < |records|
      requires EndsWith(active.nodes, was) && visited == DataOf<nat>(was[1..]) && k + 1 < |was| && n == was[k + 1]
      modifies this, active, passive, active.dummyHead, passive.dummyHead
      ensures Apart() && InRange(View()) && |old(records)| <= |records|
      ensures Visited(View(), visited, k + 1, f, goal) <==> Visited(old(View()), visited, k, f, goal)
      ensures EndsWith(active.nodes, was) && next == NodeAt(was, k + 2)
      ensures Grown()
    {
      ghost var nodes, s := active.nodes, View();
      VisitInRange(s, n.data, f(k));
      HasExpired(n.data, f(k));
      EndsWithThen(active.nodes, nodes, was);
      VisitFromStep(s, visited, k, f);
      next := NextOf(n, k, was);
    }

    /** list_for_each on the active list: callbacks push onto the list in front of the
        traversal, and take nothing off it. */
    method ForEachActive(f: nat -> Moment)
      requires Apart() && InRange(View())
      modifies this, active, passive, active.dummyHead, passive.dummyHead
      ensures Apart() && InRange(View())
      ensures View() == VisitFrom(old(View()), old(View()).active, 0, f)
      ensures Grown()
    {
      ghost var was, s := active.nodes, View();
      ghost var goal := VisitFrom(s, s.active, 0, f);
      var k := 0;
      assert active.dummyHead.next == active.After(0);
      var n := active.dummyHead.next;
      while n != null
        invariant 0 <= k < |was| && n == NodeAt(was, k + 1)
        invariant Apart() && InRange(View()) && |s.records| <= |records| && EndsWith(active.nodes, was)
        invariant Grown()
        invariant Visited(View(), s.active, k, f, goal)
        decreases |was| - k
      {
        VisitedData(was, s.active, k);
        n := VisitNode(n, f, k, was, s.active, goal);
        k := k + 1;
      }
    }

    method NextOf(n: Node<nat>, ghost k: nat, ghost was: seq<Node<nat>>) returns (next: Node?<nat>)
      requires Apart() && EndsWith(active.nodes, was) && k + 1 < |was| && n == was[k + 1]
      ensures next == NodeAt(was, k + 2)
    {
      ghost var at := |active.nodes| - |was| + 1 + k;
      assert active.nodes[|active.nodes| - |was| + 1..][k] == was[1..][k];
      assert active.nodes[at].next == active.After(at);
      if k + 2 < |was| {
        assert active.nodes[|active.nodes| - |was| + 1..][k + 1] == was[1..][k + 1];
      }
      next := n.next;
    }

    /** timer_deactivate, and the node taken off the active list. */
    method Deactivate(n: Node<nat>, ghost k: nat)
      requires Apart() && k + 1 < |active.nodes| && n == active.nodes[k]
      modifies active, n, passive, passive.dummyHead
      ensures Apart() && active.nodes == old(active.nodes)[..k + 1] + old(active.nodes)[k + 2..]
      ensures passive.Contents() == [old(active.nodes)[k + 1].data] + old(passive.Contents()) && Grown()
    {
      assert active.nodes[k].next == active.After(k);
      passive.Push(n.next.data);
      assert n in active.nodes && Apart();
      active.RemoveAfter(n, k);
    }

    /** A round of list_remove_if_true, at the node behind n. */
    method SweepNode(n: Node<nat>, ghost k: nat, ghost s: Timers) returns (n': Node<nat>, ghost k': nat)
      requires Apart() && k + 1 < |active.nodes| && n == active.nodes[k]
      requires Sweeping(s, active.nodes, k, passive.Contents()) && records == s.records
      modifies active, n, passive, passive.dummyHead
      ensures Apart() && k' < |active.nodes| && n' == active.nodes[k'] && Grown()
      ensures |active.nodes| - k' < |old(active.nodes)| - k
      ensures forall m :: m in active.nodes ==> m in old(active.nodes)
      ensures Sweeping(s, active.nodes, k', passive.Contents())
    {
      assert active.nodes[k].next == active.After(k) && n in active.nodes;
      SweepStep(s, active.nodes, k, passive.Contents());
      n', k' := n, k;
      if records[n.next.data].hasExpired {
        Deactivate(n, k);
      } else {
        n' := n.next;
        k' := k + 1;
      }
    }

    /** list_remove_if_true with timer_deactivate: what has expired moves to the passive list. */
    method RemoveExpired()
      requires Apart() && InRange(View())
      modifies active, (set n | n in active.nodes), passive, passive.dummyHead
      ensures Apart() && View() == Sweep(old(View())) && Grown()
    {
      ghost var s, was := View(), active.nodes;
      var n := active.dummyHead;
      ghost var k := 0;
      SweepStarts(s, active.nodes);
      while n.next != null
        invariant Apart() && 0 <= k < |active.nodes| && n == active.nodes[k]
        invariant (forall m :: m in active.nodes ==> m in was) && Grown()
        invariant Sweeping(s, active.nodes, k, passive.Contents())
        decreases |active.nodes| - k
      {
        assert active.nodes[k].next == active.After(k) && n in active.nodes;
        n, k := SweepNode(n, k, s);
      }
      assert active.nodes[k].next == active.After(k);
      SweepEnds(s, active.nodes, k, passive.Contents());
    }

    /** timer_tick. */
    method TimerTick(f: nat -> Moment)
      requires Apart() && InRange(View())
      modifies this, active, passive, (set n | n in active.nodes), passive.dummyHead
      ensures Apart() && View() == Tick(old(View()), f) && Grown()
    {
      ForEachActive(f);
      RemoveExpired();
    }

    method Take(step: Step)
      requires Apart() && Sound(View())
      modifies this, active, passive, (set n | n in active.nodes), passive.dummyHead
      ensures Apart() && Sound(View()) && View() == Next(old(View()), step) && Grown()
    {
      SoundInRange(View());
      NextSound(View(), step);
      match step {
        case Do(a) => Do(a);
        case TimerTick(f) => TimerTick(f);
      }
    }
  }

  /** Any program of schedules, cancellations and ticks, from timer_init on: the linked
      lists go through the states of the protocol. */
  method RunTimers(steps: seq<Step>) returns (q: Queue, ghost start: Timers)
    ensures fresh(q) && q.Apart() && Fresh(start)
    ensures q.View() == Run(start, steps) && Sound(q.View())
  {
    q := new Queue();
    start := q.View();
    FreshSound(start);
    ghost var rest := steps;
    for k := 0 to |steps|
      invariant fresh(q) && fresh(q.active) && fresh(q.passive)
      invariant forall n :: n in q.active.nodes || n in q.passive.nodes ==> fresh(n)
      invariant q.Apart() && Sound(q.View()) && rest == steps[k..]
      invariant Run(q.View(), rest) == Run(start, steps)
    {
      q.Take(steps[k]);
      rest := rest[1..];
    }
  }

  /** A sweep up to node k. */
  ghost predicate Sweeping(s: Timers, nodes: seq<Node<nat>>, k: nat, passive: seq<nat>) {
    && k < |nodes|
    && var left: seq<nat> := DataOf<nat>(nodes[k + 1..]);
    && (forall j :: 0 <= j < |left| ==> left[j] < |s.records|)
    && DataOf<nat>(nodes[1..k + 1]) + Live(s.records, left) == Live(s.records, s.active)
    && Retired(s.records, left, passive) == Retired(s.records, s.active, s.passive)
  }

  lemma SweepStarts(s: Timers, nodes: seq<Node<nat>>)
    requires nodes != [] && s.active == DataOf<nat>(nodes[1..]) && InRange(s)
    ensures Sweeping(s, nodes, 0, s.passive)
  {
    assert DataOf<nat>(nodes[1..1]) == [];
  }

  lemma SweepStep(s: Timers, nodes: seq<Node<nat>>, k: nat, passive: seq<nat>)
    requires Sweeping(s, nodes, k, passive) && k + 1 < |nodes|
    ensures nodes[k + 1].data < |s.records|
    ensures s.records[nodes[k + 1].data].hasExpired ==>
              Sweeping(s, nodes[..k + 1] + nodes[k + 2..], k, [nodes[k + 1].data] + passive)
    ensures !s.records[nodes[k + 1].data].hasExpired ==> Sweeping(s, nodes, k + 1, passive)
  {
    var i, left := nodes[k + 1].data, DataOf<nat>(nodes[k + 1..]);
    assert left[0] == i && left[1..] == DataOf<nat>(nodes[k + 2..]);
    if s.records[i].hasExpired {
      var fewer := nodes[..k + 1] + nodes[k + 2..];
      assert fewer[1..k + 1] == nodes[1..k + 1] && fewer[k + 1..] == nodes[k + 2..];
    } else {
      var live, rest := DataOf<nat>(nodes[1..k + 1]), Live(s.records, left[1..]);
      assert DataOf<nat>(nodes[1..k + 2]) == live + [i];
      assert live + [i] + rest == live + ([i] + rest);
    }
  }

  lemma SweepEnds(s: Timers, nodes: seq<Node<nat>>, k: nat, passive: seq<nat>)
    requires Sweeping(s, nodes, k, passive) && k + 1 == |nodes|
    ensures DataOf<nat>(nodes[1..]) == Live(s.records, s.active) && passive == Retired(s.records, s.active, s.passive)
  {
    assert nodes[1..k + 1] == nodes[1..];
    assert DataOf<nat>(nodes[k + 1..]) == [];
  }

  lemma VisitedData(was: seq<Node<nat>>, visited: seq<nat>, k: nat)
    requires k + 1 < |was| && visited == DataOf<nat>(was[1..])
    ensures was[k + 1].data == visited[k]
  {
  }

  lemma VisitFromStep(s: Timers, visited: seq<nat>, k: nat, f: nat -> Moment)
    requires k < |visited|
    ensures VisitFrom(s, visited, k, f) == VisitFrom(TimerProtocol.Visit(s, visited[k], f(k)), visited, k + 1, f)
  {
  }

  lemma EndsWithThen(nodes: seq<Node<nat>>, mid: seq<Node<nat>>, was: seq<Node<nat>>)
    requires EndsWith(nodes, mid) && EndsWith(mid, was)
    ensures EndsWith(nodes, was)
  {
    var end := nodes[|nodes| - |was| + 1..];
    forall j | 0 <= j < |was| - 1 ensures end[j] == was[1..][j] {
      assert mid[|mid| - |was| + 1..][j] == was[1..][j];
      assert nodes[|nodes| - |mid| + 1..][|mid| - |was| + j] == mid[1..][|mid| - |was| + j];
    }
  }

  /** The traversal from position k on leads to the goal. */
  ghost predicate Visited(s: Timers, visited: seq<nat>, k: nat, f: nat -> Moment, goal: Timers) {
    k <= |visited| && VisitFrom(s, visited, k, f) == goal
  }

  ghost function NodeAt(nodes: seq<Node<nat>>, k: nat): Node?<nat> {
    if k < |nodes| then nodes[k] else null
  }

  ghost predicate EndsWith(nodes: seq<Node<nat>>, was: seq<Node<nat>>) {
    1 <= |was| <= |nodes| && nodes[|nodes| - |was| + 1..] == was[1..]
  }
}
