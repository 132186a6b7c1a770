/** Timers told from what was asked for: the actions of a run, those of the callbacks that ran
    in it included, number the tickets, and a ticket's own start and delay say when it fires. */
module TimerHistory {
  import opened TimerProtocol

  /** The timers that are asked for, in order. */
  function Schedules(actions: seq<Action>): (asked: seq<Action>)
    ensures forall n :: 0 <= n < |asked| ==> asked[n].Schedule?
  {
    if actions == [] then []
    else (if actions[0].Schedule? then [actions[0]] else []) + Schedules(actions[1..])
  }

  /** What the callback of a record does, if it is called. */
  function CallbackActions(s: Timers, i: nat, m: Moment): seq<Action> {
    if i < |s.records| && !s.records[i].hasExpired && s.records[i].started + s.records[i].delay < m.now
    then m.actions else []
  }

  function TraversalActions(s: Timers, visited: seq<nat>, k: nat, f: nat -> Moment): seq<Action>
    requires k <= |visited|
    decreases |visited| - k
  {
    if k == |visited| then []
    else CallbackActions(s, visited[k], f(k)) + TraversalActions(Visit(s, visited[k], f(k)), visited, k + 1, f)
  }

  function StepActions(s: Timers, step: Step): seq<Action> {
    match step
    case Do(a) => [a]
    case TimerTick(f) => TraversalActions(s, s.active, 0, f)
  }

  /** Everything the program and its callbacks do in a run. */
  function Performed(s: Timers, steps: seq<Step>): seq<Action>
    decreases |steps|
  {
    if steps == [] then [] else StepActions(s, steps[0]) + Performed(Next(s, steps[0]), steps[1..])
  }

  /** What one action does: a timer takes its start and its delay from the call, and the next
      ticket, in a passive record if there is one; a cancelled record is marked. */
  lemma ActSays(s: Timers, a: Action)
    requires Sound(s)
    ensures var t := Act(s, a);
            match a {
              case Schedule(at, delay) =>
                && t.log == s.log + [Scheduled(s.issued, at, delay)] && t.issued == s.issued + 1
                && |t.active| == |s.active| + 1 && t.active[1..] == s.active && t.active[0] < |t.records|
                && t.records[t.active[0]] == Record(at, delay, false, s.issued)
                && (if s.passive == [] then t.active[0] == |s.records| else t.active[0] == s.passive[0])
              case Cancel(i) =>
                && (i < |s.records| ==> t.log == s.log + [Cancelled(s.records[i].ticket)] && t.records[i].hasExpired)
                && (i >= |s.records| ==> t == s)
            }
  {
    if s.passive != [] {
      PlacedOnce(s, s.passive[0]);
    }
  }

  // ----- tickets are numbered in the order of the calls

  function AskedBy(e: Event): seq<Action> {
    if e.Scheduled? then [Schedule(e.started, e.delay)] else []
  }

  /** The timers a log tells of. */
  function Asked(log: seq<Event>): seq<Action> {
    if log == [] then [] else Asked(log[..|log| - 1]) + AskedBy(log[|log| - 1])
  }

  lemma AskedMore(log: seq<Event>, e: Event)
    ensures Asked(log + [e]) == Asked(log) + AskedBy(e)
  {
    assert (log + [e])[..|log|] == log;
  }

  predicate Numbered(log: seq<Event>, b: nat)
    requires b < |log|
  {
    log[b].Scheduled? ==>
      0 <= log[b].ticket < |Asked(log)| && Asked(log)[log[b].ticket] == Schedule(log[b].started, log[b].delay)
  }

  /** Ticket n is that of the n-th timer asked for. */
  ghost predicate Told(s: Timers) {
    s.issued == |Asked(s.log)| && forall b :: 0 <= b < |s.log| ==> Numbered(s.log, b)
  }

  /** One more event. */
  lemma ToldMore(s: Timers, e: Event, t: Timers)
    requires Told(s) && t.log == s.log + [e]
    requires e.Scheduled? ==> e.ticket == s.issued
    requires t.issued == s.issued + if e.Scheduled? then 1 else 0
    ensures Told(t) && Asked(t.log) == Asked(s.log) + AskedBy(e)
  {
    AskedMore(s.log, e);
    forall b | 0 <= b < |t.log| ensures Numbered(t.log, b) {
      if b < |s.log| {
        assert Numbered(s.log, b);
      }
    }
  }

  /** t comes from s by actions, and events that ask for nothing. */
  ghost predicate Answers(s: Timers, t: Timers, actions: seq<Action>) {
    Told(t) && Asked(t.log) == Asked(s.log) + Schedules(actions)
  }

  lemma {:induction false} SchedulesConcat(a: seq<Action>, b: seq<Action>)
    ensures Schedules(a + b) == Schedules(a) + Schedules(b)
    decreases |a|
  {
    if a == [] {
      assert a + b == b;
    } else {
      assert (a + b)[1..] == a[1..] + b;
      SchedulesConcat(a[1..], b);
    }
  }

  lemma AnswersThen(s: Timers, t: Timers, u: Timers, a: seq<Action>, b: seq<Action>)
    requires Answers(s, t, a) && Answers(t, u, b)
    ensures Answers(s, u, a + b)
  {
    SchedulesConcat(a, b);
    assert Asked(s.log) + Schedules(a) + Schedules(b) == Asked(s.log) + (Schedules(a) + Schedules(b));
  }

  lemma AnswersNothing(s: Timers)
    requires Told(s)
    ensures Answers(s, s, [])
  {
    assert Asked(s.log) + [] == Asked(s.log);
  }

  lemma ActTold(s: Timers, a: Action)
    requires Told(s)
    ensures Answers(s, Act(s, a), [a])
  {
    assert Schedules([a]) == if a.Schedule? then [a] else [];
    AnswersNothing(s);
    match a {
      case Schedule(at, delay) => ToldMore(s, Scheduled(s.issued, at, delay), Act(s, a));
      case Cancel(i) =>
        if i < |s.records| {
          ToldMore(s, Cancelled(s.records[i].ticket), Act(s, a));
        }
    }
  }

  lemma {:induction false} ActsTold(s: Timers, actions: seq<Action>)
    requires Told(s)
    ensures Answers(s, Acts(s, actions), actions)
    decreases |actions|
  {
    if actions == [] {
      AnswersNothing(s);
    } else {
      var t := Act(s, actions[0]);
      ActTold(s, actions[0]);
      ActsTold(t, actions[1..]);
      AnswersThen(s, t, Acts(s, actions), [actions[0]], actions[1..]);
      assert [actions[0]] + actions[1..] == actions;
    }
  }

  lemma VisitTold(s: Timers, i: nat, m: Moment)
    requires Told(s)
    ensures Answers(s, Visit(s, i, m), CallbackActions(s, i, m))
  {
    AnswersNothing(s);
    if i < |s.records| && Due(s, i, m.now) {
      var mid := Expiring(s, i, m.now);
      ToldMore(s, Fired(s.records[i].ticket, m.now), mid);
      ActsTold(mid, m.actions);
    }
  }

  lemma {:induction false} TraversalTold(s: Timers, visited: seq<nat>, k: nat, f: nat -> Moment)
    requires Told(s) && k <= |visited|
    ensures Answers(s, VisitFrom(s, visited, k, f), TraversalActions(s, visited, k, f))
    decreases |visited| - k
  {
    if k == |visited| {
      AnswersNothing(s);
    } else {
      var t := Visit(s, visited[k], f(k));
      VisitTold(s, visited[k], f(k));
      TraversalTold(t, visited, k + 1, f);
      AnswersThen(s, t, VisitFrom(t, visited, k + 1, f), CallbackActions(s, visited[k], f(k)),
                  TraversalActions(t, visited, k + 1, f));
    }
  }

  lemma StepTold(s: Timers, step: Step)
    requires Told(s)
    ensures Answers(s, Next(s, step), StepActions(s, step))
  {
    match step {
      case Do(a) => ActTold(s, a);
      case TimerTick(f) => TraversalTold(s, s.active, 0, f);
    }
  }

  /** The timers a run's log tells of are those that were asked for in it, in order. */
  lemma {:induction false} RunTold(s: Timers, steps: seq<Step>)
    requires Told(s)
    ensures Answers(s, Run(s, steps), Performed(s, steps))
    decreases |steps|
  {
    if steps == [] {
      AnswersNothing(s);
    } else {
      var t := Next(s, steps[0]);
      StepTold(s, steps[0]);
      RunTold(t, steps[1..]);
      AnswersThen(s, t, Run(t, steps[1..]), StepActions(s, steps[0]), Performed(t, steps[1..]));
    }
  }

  // ----- a ticket that has not ended is in the active list

  ghost predicate EndedIn(log: seq<Event>, ticket: int) {
    exists a :: 0 <= a < |log| && Ends(log[a], ticket)
  }

  /** Place k of the active list holds this ticket. */
  predicate HeldAt(s: Timers, k: nat, ticket: int) {
    k < |s.active| && s.active[k] < |s.records| && s.records[s.active[k]].ticket == ticket
  }

  ghost predicate Waits(s: Timers, ticket: int) {
    exists k: nat :: HeldAt(s, k, ticket) && !s.records[s.active[k]].hasExpired
  }

  ghost predicate Kept(s: Timers) {
    forall ticket: int :: 0 <= ticket < s.issued ==> EndedIn(s.log, ticket) || Waits(s, ticket)
  }

  lemma EndedOn(log: seq<Event>, more: seq<Event>, ticket: int)
    requires EndedIn(log, ticket) && log <= more
    ensures EndedIn(more, ticket)
  {
    var a :| 0 <= a < |log| && Ends(log[a], ticket);
    assert Ends(more[a], ticket);
  }

  /** Where active records stay the same timers, tickets stay kept. */
  lemma SinceKept(s: Timers, t: Timers)
    requires Kept(s) && Since(s, t)
    ensures forall ticket: int :: 0 <= ticket < s.issued ==> EndedIn(t.log, ticket) || Waits(t, ticket)
  {
    forall ticket: int | 0 <= ticket < s.issued ensures EndedIn(t.log, ticket) || Waits(t, ticket) {
      if EndedIn(s.log, ticket) {
        EndedOn(s.log, t.log, ticket);
      } else {
        var k: nat :| HeldAt(s, k, ticket) && !s.records[s.active[k]].hasExpired;
        var i := s.active[k];
        assert SameTimer(s, t, i);
        if t.records[i].hasExpired {
          var a :| |s.log| <= a < |t.log| && Ends(t.log[a], ticket);
        } else {
          var j: nat :| j < |t.active| && t.active[j] == i;
          assert HeldAt(t, j, ticket);
        }
      }
    }
  }

  lemma ActKept(s: Timers, a: Action)
    requires Sound(s) && Kept(s)
    ensures Sound(Act(s, a)) && Kept(Act(s, a))
  {
    var t := Act(s, a);
    ActSince(s, a);
    SinceKept(s, t);
    ActSays(s, a);
    if a.Schedule? {
      assert HeldAt(t, 0, s.issued);
    }
  }

  lemma {:induction false} ActsKept(s: Timers, actions: seq<Action>)
    requires Sound(s) && Kept(s)
    ensures Kept(Acts(s, actions))
    decreases |actions|
  {
    if actions != [] {
      ActKept(s, actions[0]);
      ActsKept(Act(s, actions[0]), actions[1..]);
    }
  }

  lemma VisitKept(s: Timers, i: nat, m: Moment)
    requires Sound(s) && Kept(s) && i in s.active && i < |s.records|
    ensures Kept(Visit(s, i, m))
  {
    if Due(s, i, m.now) {
      var mid := Expiring(s, i, m.now);
      ExpiringSound(s, i, m.now);
      EndingSince(s, i, Fired(s.records[i].ticket, m.now), mid);
      SinceKept(s, mid);
      ActsKept(mid, m.actions);
    }
  }

  lemma {:induction false} TraversalKept(s: Timers, t: Timers, k: nat, f: nat -> Moment)
    requires Sound(s) && k <= |s.active| && Swept(s, t, s.active, k, f) && Kept(t)
    ensures Kept(VisitFrom(t, s.active, k, f))
    decreases |s.active| - k
  {
    if k < |s.active| {
      assert SameTimer(s, t, s.active[k]);
      VisitKept(t, s.active[k], f(k));
      VisitSwept(s, t, k, f);
      TraversalKept(s, Visit(t, s.active[k], f(k)), k + 1, f);
    }
  }

  lemma SweepKept(s: Timers)
    requires Sound(s) && Kept(s)
    ensures Kept(Sweep(s))
  {
    var t := Sweep(s);
    forall ticket: int | 0 <= ticket < s.issued && !EndedIn(s.log, ticket) ensures Waits(t, ticket) {
      var k: nat :| HeldAt(s, k, ticket) && !s.records[s.active[k]].hasExpired;
      LiveIs(s.records, s.active, s.active[k]);
      var j: nat :| j < |t.active| && t.active[j] == s.active[k];
      assert HeldAt(t, j, ticket);
    }
  }

  lemma NextKept(s: Timers, step: Step)
    requires Sound(s) && Kept(s)
    ensures Sound(Next(s, step)) && Kept(Next(s, step))
  {
    NextSound(s, step);
    match step {
      case Do(a) => ActKept(s, a);
      case TimerTick(f) =>
        SinceSelf(s);
        TraversalKept(s, s, 0, f);
        VisitFromSwept(s, s, 0, f);
        SweepKept(VisitFrom(s, s.active, 0, f));
    }
  }

  lemma {:induction false} RunKept(s: Timers, steps: seq<Step>)
    requires Sound(s) && Kept(s)
    ensures Sound(Run(s, steps)) && Kept(Run(s, steps))
    decreases |steps|
  {
    if steps != [] {
      NextKept(s, steps[0]);
      RunKept(Next(s, steps[0]), steps[1..]);
    }
  }

  // ----- when timers fire

  lemma FreshRun(s: Timers, steps: seq<Step>)
    requires Fresh(s)
    ensures var t := Run(s, steps); Sound(t) && Kept(t) && Told(t) && Asked(t.log) == Schedules(Performed(s, steps))
  {
    FreshSound(s);
    RunKept(s, steps);
    RunTold(s, steps);
    assert Asked(s.log) + Schedules(Performed(s, steps)) == Schedules(Performed(s, steps));
  }

  /** Never too early: a timer that fires is one that was asked for, and when it fires the
      clock is past the time of that call by more than the delay it asked for. */
  lemma FiresPastDelay(s: Timers, steps: seq<Step>, b: nat, ticket: int, now: Time)
    requires Fresh(s) && b < |Run(s, steps).log| && Run(s, steps).log[b] == Fired(ticket, now)
    ensures var asked := Schedules(Performed(s, steps));
            && 0 <= ticket < |asked|
            && asked[ticket].at + asked[ticket].delay < now
  {
    var log := Run(s, steps).log;
    FreshRun(s, steps);
    TimerDiscipline(s, steps, b, ticket, now);
    var a, started: Time, delay: Time :| 0 <= a < b && log[a] == Scheduled(ticket, started, delay) && started + delay < now;
    assert Numbered(log, a);
  }

  /** Nor too late: a timer that was asked for and has neither fired nor been cancelled is at
      some place of the active list when a tick begins, and if the clock is past its time when
      that place is visited, it has fired or been cancelled when the tick ends. */
  lemma FiresInTick(s: Timers, steps: seq<Step>, ticket: nat, f: nat -> Moment)
    requires Fresh(s) && ticket < |Schedules(Performed(s, steps))|
    requires forall a :: 0 <= a < |Run(s, steps).log| ==>
               Run(s, steps).log[a].ticket != ticket || Run(s, steps).log[a].Scheduled?
    ensures var asked, t := Schedules(Performed(s, steps)), Run(s, steps);
            exists k: nat :: HeldAt(t, k, ticket)
              && (asked[ticket].at + asked[ticket].delay < f(k).now ==> FiredOrCancelled(t.log, Tick(t, f).log, ticket))
  {
    var asked, t := Schedules(Performed(s, steps)), Run(s, steps);
    FreshRun(s, steps);
    assert Waits(t, ticket);
    var k: nat :| HeldAt(t, k, ticket) && !t.records[t.active[k]].hasExpired;
    var r := t.records[t.active[k]];
    assert OpenRecord(t, t.active[k]);
    var a :| 0 <= a < |t.log| && t.log[a] == Scheduled(r.ticket, r.started, r.delay);
    assert Numbered(t.log, a);
    TickSound(t, f);
    if r.started + r.delay < f(k).now {
      assert Handled(t, Tick(t, f), t.active[k], f(k));
      var e :| |t.log| <= e < |Tick(t, f).log| && Ends(Tick(t, f).log[e], ticket);
    }
  }

  /** What the log gains has this ticket fire or cancelled. */
  ghost predicate FiredOrCancelled(log: seq<Event>, more: seq<Event>, ticket: int) {
    exists e :: |log| <= e < |more| && (more[e].Fired? || more[e].Cancelled?) && more[e].ticket == ticket
  }

  // ----- the order of firing

  /** The active list is in the order of the tickets, the newest in front. */
  ghost predicate NewestFirst(s: Timers) {
    Falling(s, s.active)
  }

  ghost predicate Falling(s: Timers, list: seq<nat>) {
    forall j, k :: 0 <= j < k < |list| ==> TicketAt(s, list[k]) < TicketAt(s, list[j])
  }

  function TicketAt(s: Timers, i: nat): int {
    if i < |s.records| then s.records[i].ticket else -1
  }

  /** The active list of s is the end of that of t, with the same tickets. */
  ghost predicate Longer(s: Timers, t: Timers) {
    && s.issued <= t.issued && |s.active| <= |t.active| && t.active[|t.active| - |s.active|..] == s.active
    && forall i :: i in s.active ==> TicketAt(t, i) == TicketAt(s, i)
  }

  /** One more in front. */
  lemma ScheduleOrder(s: Timers, at: Time, delay: Time)
    requires Sound(s) && NewestFirst(s)
    ensures var t := Act(s, Schedule(at, delay)); NewestFirst(t) && Longer(s, t)
  {
    var t := Act(s, Schedule(at, delay));
    ActSays(s, Schedule(at, delay));
    SameTickets(s, Schedule(at, delay));
    assert TicketAt(t, t.active[0]) == s.issued;
    forall j, k | 0 <= j < k < |t.active| ensures TicketAt(t, t.active[k]) < TicketAt(t, t.active[j]) {
      assert t.active[k] == s.active[k - 1] && t.active[k] in s.active;
      assert TicketAt(t, t.active[k]) == TicketAt(s, s.active[k - 1]) < s.issued;
      if j > 0 {
        assert t.active[j] == s.active[j - 1] && t.active[j] in s.active;
      }
    }
  }

  lemma SameTickets(s: Timers, a: Action)
    requires Sound(s)
    ensures Sound(Act(s, a)) && forall i :: i in s.active ==> TicketAt(Act(s, a), i) == TicketAt(s, i)
  {
    ActSince(s, a);
    forall i | i in s.active ensures TicketAt(Act(s, a), i) == TicketAt(s, i) {
      assert SameTimer(s, Act(s, a), i);
    }
  }

  lemma CancelOrder(s: Timers, i: nat)
    requires Sound(s) && NewestFirst(s)
    ensures var t := Act(s, Cancel(i)); NewestFirst(t) && Longer(s, t)
  {
    var t := Act(s, Cancel(i));
    SameTickets(s, Cancel(i));
    assert t.active == s.active && t.active[0..] == s.active;
  }

  lemma ActOrder(s: Timers, a: Action)
    requires Sound(s) && NewestFirst(s)
    ensures NewestFirst(Act(s, a)) && Longer(s, Act(s, a))
  {
    match a {
      case Schedule(at, delay) => ScheduleOrder(s, at, delay);
      case Cancel(i) => CancelOrder(s, i);
    }
  }

  lemma LongerThen(s: Timers, t: Timers, u: Timers)
    requires Longer(s, t) && Longer(t, u)
    ensures Longer(s, u)
  {
    assert t.active == u.active[|u.active| - |t.active|..];
    forall i | i in s.active ensures i in t.active {
      assert i in t.active[|t.active| - |s.active|..];
    }
  }

  lemma LongerSelf(s: Timers)
    ensures Longer(s, s)
  {
    assert s.active[0..] == s.active;
  }

  lemma {:induction false} ActsOrder(s: Timers, actions: seq<Action>)
    requires Sound(s) && NewestFirst(s)
    ensures Sound(Acts(s, actions)) && NewestFirst(Acts(s, actions)) && Longer(s, Acts(s, actions))
    decreases |actions|
  {
    ActsSound(s, actions);
    if actions == [] {
      LongerSelf(s);
    } else {
      ActOrder(s, actions[0]);
      ActSince(s, actions[0]);
      ActsOrder(Act(s, actions[0]), actions[1..]);
      LongerThen(s, Act(s, actions[0]), Acts(s, actions));
    }
  }

  lemma VisitOrder(s: Timers, i: nat, m: Moment)
    requires Sound(s) && NewestFirst(s) && i in s.active && i < |s.records|
    ensures NewestFirst(Visit(s, i, m)) && Longer(s, Visit(s, i, m))
  {
    LongerSelf(s);
    if Due(s, i, m.now) {
      var mid := Expiring(s, i, m.now);
      ExpiringSound(s, i, m.now);
      assert forall j :: 0 <= j < |s.records| ==> TicketAt(mid, j) == TicketAt(s, j);
      assert NewestFirst(mid) && Longer(s, mid);
      ActsOrder(mid, m.actions);
      LongerThen(s, mid, Acts(mid, m.actions));
    }
  }

  /** The firings of a log from a on, in falling order of their tickets, all above `least`. */
  ghost predicate FallingFrom(log: seq<Event>, a: nat, least: int) {
    && (forall b, c :: a <= b < c < |log| && log[b].Fired? && log[c].Fired? ==> log[c].ticket < log[b].ticket)
    && forall b :: a <= b < |log| && log[b].Fired? ==> log[b].ticket > least
  }

  /** One more firing, and then none. */
  lemma OneMoreFalls(log: seq<Event>, more: seq<Event>, a: nat, ticket: int, least: int)
    requires a <= |log| < |more| && log <= more && FallingFrom(log, a, ticket) && least < ticket
    requires more[|log|].Fired? && more[|log|].ticket == ticket
    requires forall b :: |log| < b < |more| ==> !more[b].Fired?
    ensures FallingFrom(more, a, least)
  {
    assert forall b :: 0 <= b < |log| ==> more[b] == log[b];
  }

  lemma FiresOneMore(s: Timers, i: nat, m: Moment, a: nat, least: int)
    requires Sound(s) && i in s.active && i < |s.records| && least < s.records[i].ticket
    requires a <= |s.log| && FallingFrom(s.log, a, s.records[i].ticket)
    ensures FallingFrom(Visit(s, i, m).log, a, least)
  {
    VisitSince(s, i, m);
    if Due(s, i, m.now) {
      OneMoreFalls(s.log, Visit(s, i, m).log, a, s.records[i].ticket, least);
    }
  }

  /** What a traversal from s has come to at place k. */
  ghost predicate Ordered(s: Timers, t: Timers, k: nat) {
    && k <= |s.active| && NewestFirst(t) && Longer(s, t) && |s.log| <= |t.log|
    && FallingFrom(t.log, |s.log|, NextTicket(s, k))
  }

  /** The greatest ticket that has not been visited yet. */
  function NextTicket(s: Timers, k: nat): int {
    if k < |s.active| then TicketAt(s, s.active[k]) else -1
  }

  lemma TicketsFall(s: Timers, k: nat)
    requires NewestFirst(s) && k < |s.active| && TicketAt(s, s.active[k]) >= 0
    ensures NextTicket(s, k + 1) < TicketAt(s, s.active[k])
  {
  }

  lemma VisitOrdered(s: Timers, t: Timers, k: nat, f: nat -> Moment)
    requires Sound(s) && NewestFirst(s) && k < |s.active| && Sound(t) && SameTimer(s, t, s.active[k]) && Ordered(s, t, k)
    ensures Ordered(s, Visit(t, s.active[k], f(k)), k + 1)
  {
    var i := s.active[k];
    VisitSince(t, i, f(k));
    VisitOrder(t, i, f(k));
    LongerThen(s, t, Visit(t, i, f(k)));
    TicketsFall(s, k);
    FiresOneMore(t, i, f(k), |s.log|, NextTicket(s, k + 1));
  }

  lemma StillThere(s: Timers, t: Timers, k: nat, f: nat -> Moment)
    requires k < |s.active| && Swept(s, t, s.active, k, f)
    ensures Sound(t) && SameTimer(s, t, s.active[k])
  {
  }

  lemma {:induction false} TraversalOrdered(s: Timers, t: Timers, k: nat, f: nat -> Moment)
    requires Sound(s) && NewestFirst(s) && Swept(s, t, s.active, k, f) && Ordered(s, t, k)
    ensures Ordered(s, VisitFrom(t, s.active, k, f), |s.active|)
    decreases |s.active| - k
  {
    if k < |s.active| {
      VisitSwept(s, t, k, f);
      StillThere(s, t, k, f);
      VisitOrdered(s, t, k, f);
      TraversalOrdered(s, Visit(t, s.active[k], f(k)), k + 1, f);
    }
  }

  /** What stays stays in order. */
  lemma {:induction false} LiveOrder(s: Timers, active: seq<nat>)
    requires Falling(s, active)
    ensures Falling(s, Live(s.records, active)) && forall i :: i in Live(s.records, active) ==> i in active
    decreases |active|
  {
    if active != [] {
      FallingTail(s, active);
      LiveOrder(s, active[1..]);
      if !Expired(s.records, active[0]) {
        FallingCons(s, active[0], Live(s.records, active[1..]));
      }
    }
  }

  lemma FallingTail(s: Timers, list: seq<nat>)
    requires Falling(s, list) && list != []
    ensures Falling(s, list[1..])
    ensures forall i :: i in list[1..] ==> i in list && TicketAt(s, i) < TicketAt(s, list[0])
  {
    assert forall k :: 0 <= k < |list[1..]| ==> list[1..][k] == list[k + 1];
  }

  lemma FallingCons(s: Timers, first: nat, list: seq<nat>)
    requires Falling(s, list) && forall i :: i in list ==> TicketAt(s, i) < TicketAt(s, first)
    ensures Falling(s, [first] + list)
  {
  }

  lemma SweepOrder(t: Timers)
    requires NewestFirst(t)
    ensures NewestFirst(Sweep(t))
  {
    LiveOrder(t, t.active);
    SameFalling(t, Sweep(t), Live(t.records, t.active));
  }

  lemma SameFalling(s: Timers, t: Timers, list: seq<nat>)
    requires Falling(s, list) && s.records == t.records
    ensures Falling(t, list)
  {
    assert forall i: nat :: TicketAt(t, i) == TicketAt(s, i);
  }

  lemma TickOrder(s: Timers, f: nat -> Moment)
    requires Sound(s) && NewestFirst(s)
    ensures NewestFirst(Tick(s, f)) && FallingFrom(Tick(s, f).log, |s.log|, -1)
  {
    SinceSelf(s);
    LongerSelf(s);
    assert Ordered(s, s, 0);
    TraversalOrdered(s, s, 0, f);
    SweepOrder(VisitFrom(s, s.active, 0, f));
  }

  lemma {:induction false} RunOrder(s: Timers, steps: seq<Step>)
    requires Sound(s) && NewestFirst(s)
    ensures Sound(Run(s, steps)) && NewestFirst(Run(s, steps))
    decreases |steps|
  {
    if steps != [] {
      NextSound(s, steps[0]);
      match steps[0] {
        case Do(a) => ActOrder(s, a);
        case TimerTick(f) => TickOrder(s, f);
      }
      RunOrder(Next(s, steps[0]), steps[1..]);
    }
  }

  /** In one tick the timers fire in the reverse order of the calls that asked for them. */
  lemma FiresNewestFirst(s: Timers, steps: seq<Step>, f: nat -> Moment, b: nat, c: nat)
    requires Fresh(s)
    requires var log, more := Run(s, steps).log, Tick(Run(s, steps), f).log;
             |log| <= b < c < |more| && more[b].Fired? && more[c].Fired?
    ensures Tick(Run(s, steps), f).log[c].ticket < Tick(Run(s, steps), f).log[b].ticket
  {
    FreshSound(s);
    RunOrder(s, steps);
    TickOrder(Run(s, steps), f);
  }
}
