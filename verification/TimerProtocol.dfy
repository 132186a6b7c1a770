/** Timers as values: records that move between an active and a passive list while
    callbacks, run in the middle of a traversal, schedule and cancel further timers.
    Every timer_schedule call gets a ticket, and a log says what became of it. */
module TimerProtocol {
  type Time = real

  /** A struct Timer: has_expired is also set by timer_cancel. */
  datatype Record = Record(started: Time, delay: Time, hasExpired: bool, ticket: int)

  datatype Event =
    | Scheduled(ticket: int, started: Time, delay: Time)
    | Cancelled(ticket: int)
    | Fired(ticket: int, at: Time)

  datatype Timers = Timers(records: seq<Record>, active: seq<nat>, passive: seq<nat>, log: seq<Event>, issued: nat)

  /** What a callback, or the program between ticks, may do. */
  datatype Action = Schedule(at: Time, delay: Time) | Cancel(record: nat)

  /** What happens while one record is visited: the clock reading it is compared with,
      and what its callback does if it is called. */
  datatype Moment = Moment(now: Time, actions: seq<Action>)

  function Scheduling(s: Timers, at: Time, delay: Time): Timers {
    var r := Record(at, delay, false, s.issued);
    var log := s.log + [Scheduled(s.issued, at, delay)];
    if s.passive != [] && s.passive[0] < |s.records| then
      Timers(s.records[s.passive[0] := r], [s.passive[0]] + s.active, s.passive[1..], log, s.issued + 1)
    else
      Timers(s.records + [r], [|s.records|] + s.active, s.passive, log, s.issued + 1)
  }

  function Cancelling(s: Timers, i: nat): Timers {
    if i < |s.records| then
      s.(records := s.records[i := s.records[i].(hasExpired := true)],
         log := s.log + [Cancelled(s.records[i].ticket)])
    else s
  }

  function Act(s: Timers, a: Action): Timers {
    match a
    case Schedule(at, delay) => Scheduling(s, at, delay)
    case Cancel(i) => Cancelling(s, i)
  }

  function Acts(s: Timers, actions: seq<Action>): Timers
    decreases |actions|
  {
    if actions == [] then s else Acts(Act(s, actions[0]), actions[1..])
  }

  function Expiring(s: Timers, i: nat, now: Time): Timers
    requires i < |s.records|
  {
    s.(records := s.records[i := s.records[i].(hasExpired := true)],
       log := s.log + [Fired(s.records[i].ticket, now)])
  }

  predicate Due(s: Timers, i: nat, now: Time)
    requires i < |s.records|
  {
    !s.records[i].hasExpired && s.records[i].started + s.records[i].delay < now
  }

  /** timer_has_expired. */
  function Visit(s: Timers, i: nat, m: Moment): Timers {
    if i < |s.records| && Due(s, i, m.now) then Acts(Expiring(s, i, m.now), m.actions) else s
  }

  /** f says what happens at each position of the list. */
  function VisitFrom(s: Timers, visited: seq<nat>, k: nat, f: nat -> Moment): Timers
    requires k <= |visited|
    decreases |visited| - k
  {
    if k == |visited| then s else VisitFrom(Visit(s, visited[k], f(k)), visited, k + 1, f)
  }

  predicate Expired(records: seq<Record>, i: nat) {
    i < |records| && records[i].hasExpired
  }

  /** The records that stay, in order. */
  function Live(records: seq<Record>, active: seq<nat>): seq<nat> {
    if active == [] then []
    else if Expired(records, active[0]) then Live(records, active[1..])
    else [active[0]] + Live(records, active[1..])
  }

  /** The records that go, each pushed on top of what is there. */
  function Retired(records: seq<Record>, active: seq<nat>, passive: seq<nat>): seq<nat> {
    if active == [] then passive
    else if Expired(records, active[0]) then Retired(records, active[1..], [active[0]] + passive)
    else Retired(records, active[1..], passive)
  }

  function Sweep(s: Timers): Timers {
    s.(active := Live(s.records, s.active), passive := Retired(s.records, s.active, s.passive))
  }

  /** timer_tick: the records active when it begins are visited in order. */
  function Tick(s: Timers, f: nat -> Moment): Timers {
    Sweep(VisitFrom(s, s.active, 0, f))
  }

  ghost predicate InRange(s: Timers) {
    && (forall k :: 0 <= k < |s.active| ==> s.active[k] < |s.records|)
    && (forall k :: 0 <= k < |s.passive| ==> s.passive[k] < |s.records|)
  }

  lemma {:induction false} ActsInRange(s: Timers, actions: seq<Action>)
    requires InRange(s)
    ensures InRange(Acts(s, actions)) && |s.records| <= |Acts(s, actions).records|
    decreases |actions|
  {
    if actions != [] {
      ActInRange(s, actions[0]);
      ActsInRange(Act(s, actions[0]), actions[1..]);
    }
  }

  lemma ActInRange(s: Timers, a: Action)
    requires InRange(s)
    ensures InRange(Act(s, a)) && |s.records| <= |Act(s, a).records|
  {
  }

  lemma VisitInRange(s: Timers, i: nat, m: Moment)
    requires InRange(s)
    ensures InRange(Visit(s, i, m)) && |s.records| <= |Visit(s, i, m).records|
  {
    if i < |s.records| && Due(s, i, m.now) {
      ActsInRange(Expiring(s, i, m.now), m.actions);
    }
  }

  // ----- every record in exactly one list

  function Places(s: Timers, i: nat): nat {
    multiset(s.active)[i] + multiset(s.passive)[i]
  }

  ghost predicate Placed(s: Timers) {
    forall i: nat :: Places(s, i) == if i < |s.records| then 1 else 0
  }

  lemma CountCons(i: nat, rest: seq<nat>, j: nat)
    ensures multiset([i] + rest)[j] == multiset(rest)[j] + if i == j then 1 else 0
  {
  }

  lemma CountTail(s: seq<nat>, j: nat)
    requires s != []
    ensures multiset(s)[j] == multiset(s[1..])[j] + if s[0] == j then 1 else 0
  {
    assert s == [s[0]] + s[1..];
  }

  lemma SchedulingPlaced(s: Timers, at: Time, delay: Time)
    requires Placed(s)
    ensures Placed(Scheduling(s, at, delay))
  {
    var t := Scheduling(s, at, delay);
    if s.passive != [] {
      CountTail(s.passive, s.passive[0]);
      assert Places(s, s.passive[0]) > 0;
    }
    forall i: nat ensures Places(t, i) == if i < |t.records| then 1 else 0 {
      assert Places(s, i) == if i < |s.records| then 1 else 0;
      CountCons(t.active[0], s.active, i);
      if s.passive != [] {
        CountTail(s.passive, i);
      }
    }
  }

  lemma CancellingPlaced(s: Timers, i: nat)
    requires Placed(s)
    ensures Placed(Cancelling(s, i))
  {
    var t := Cancelling(s, i);
    forall j: nat ensures Places(t, j) == if j < |t.records| then 1 else 0 {
      assert Places(s, j) == Places(t, j);
    }
  }

  lemma {:induction false} SweepCounts(records: seq<Record>, active: seq<nat>, passive: seq<nat>, i: nat)
    ensures multiset(Live(records, active))[i] + multiset(Retired(records, active, passive))[i]
         == multiset(active)[i] + multiset(passive)[i]
    decreases active
  {
    if active != [] {
      CountTail(active, i);
      if Expired(records, active[0]) {
        SweepCounts(records, active[1..], [active[0]] + passive, i);
        CountCons(active[0], passive, i);
      } else {
        SweepCounts(records, active[1..], passive, i);
        CountCons(active[0], Live(records, active[1..]), i);
      }
    }
  }

  lemma SweepPlaced(s: Timers)
    requires Placed(s)
    ensures Placed(Sweep(s))
  {
    forall i: nat ensures Places(Sweep(s), i) == if i < |s.records| then 1 else 0 {
      SweepCounts(s.records, s.active, s.passive, i);
      assert Places(s, i) == if i < |s.records| then 1 else 0;
    }
  }

  lemma ExpiringPlaced(s: Timers, i: nat, now: Time)
    requires Placed(s) && i < |s.records|
    ensures Placed(Expiring(s, i, now))
  {
    var t := Expiring(s, i, now);
    forall j: nat ensures Places(t, j) == if j < |t.records| then 1 else 0 {
      assert Places(s, j) == Places(t, j);
    }
  }

  // ----- what the log says

  /** The event that ends the wait of a ticket. */
  predicate Ends(e: Event, ticket: int) {
    !e.Scheduled? && e.ticket == ticket
  }

  /** Still waiting: scheduled, and neither fired nor cancelled since. */
  ghost predicate Open(log: seq<Event>, ticket: int, started: Time, delay: Time) {
    Scheduled(ticket, started, delay) in log && forall a :: 0 <= a < |log| ==> !Ends(log[a], ticket)
  }

  /** The log up to an event: a timer fires only while it is waiting, and only past the
      time it was scheduled for; a ticket is given out once. */
  ghost predicate Rightly(before: seq<Event>, e: Event) {
    match e
    case Fired(ticket, at) => exists started: Time, delay: Time :: started + delay < at && Open(before, ticket, started, delay)
    case Scheduled(ticket, _, _) => forall a :: 0 <= a < |before| ==> before[a].ticket != ticket
    case Cancelled(_) => true
  }

  ghost predicate Orderly(log: seq<Event>) {
    forall b :: 0 <= b < |log| ==> Rightly(log[..b], log[b])
  }

  ghost predicate OpenRecord(s: Timers, i: nat) {
    i < |s.records| && (!s.records[i].hasExpired ==> Open(s.log, s.records[i].ticket, s.records[i].started, s.records[i].delay))
  }

  ghost predicate Ticketed(s: Timers) {
    && (forall i :: 0 <= i < |s.records| ==> s.records[i].ticket < s.issued)
    && (forall a :: 0 <= a < |s.log| ==> s.log[a].ticket < s.issued)
    && (forall i, j :: 0 <= i < j < |s.records| && s.records[i].ticket == s.records[j].ticket ==> s.records[i].ticket < 0)
    && (forall i :: i in s.active ==> i < |s.records| && s.records[i].ticket >= 0)
  }

  ghost predicate Sound(s: Timers) {
    && Placed(s) && Orderly(s.log) && Ticketed(s)
    && forall i :: i in s.active ==> OpenRecord(s, i)
  }

  lemma OneMoreEvent(log: seq<Event>, e: Event)
    requires Orderly(log) && Rightly(log, e)
    ensures Orderly(log + [e])
  {
    var more := log + [e];
    forall b | 0 <= b < |more| ensures Rightly(more[..b], more[b]) {
      if b < |log| {
        assert more[..b] == log[..b];
      } else {
        assert more[..b] == log;
      }
    }
  }

  lemma StaysOpen(log: seq<Event>, e: Event, r: Record)
    requires Open(log, r.ticket, r.started, r.delay) && !Ends(e, r.ticket)
    ensures Open(log + [e], r.ticket, r.started, r.delay)
  {
    var more := log + [e];
    assert Scheduled(r.ticket, r.started, r.delay) in more;
  }

  lemma PlacedOnce(s: Timers, i: nat)
    requires Placed(s)
    ensures i in s.passive ==> i < |s.records| && i !in s.active
    ensures i in s.active ==> i < |s.records|
  {
    assert Places(s, i) == if i < |s.records| then 1 else 0;
    assert i in s.passive ==> i in multiset(s.passive);
    assert i in s.active ==> i in multiset(s.active);
  }

  lemma SchedulingTicketed(s: Timers, at: Time, delay: Time)
    requires Ticketed(s) && (s.passive != [] ==> s.passive[0] < |s.records|)
    ensures Ticketed(Scheduling(s, at, delay))
  {
  }

  lemma SchedulingSound(s: Timers, at: Time, delay: Time)
    requires Sound(s)
    ensures Sound(Scheduling(s, at, delay))
    ensures var t := Scheduling(s, at, delay);
            && t.active[1..] == s.active && t.active[0] !in s.active && !Expired(t.records, t.active[0])
            && (forall i :: i in s.active ==> i < |s.records| && t.records[i] == s.records[i])
  {
    var t := Scheduling(s, at, delay);
    var e := Scheduled(s.issued, at, delay);
    SchedulingPlaced(s, at, delay);
    OneMoreEvent(s.log, e);
    if s.passive != [] {
      PlacedOnce(s, s.passive[0]);
    }
    forall i | i in s.active ensures i < |s.records| && i != t.active[0] {
      PlacedOnce(s, i);
    }
    SchedulingTicketed(s, at, delay);
    forall i | i in t.active ensures OpenRecord(t, i) {
      if i == t.active[0] {
        assert t.log[|s.log|] == e;
      } else {
        assert i in s.active && OpenRecord(s, i) && t.records[i] == s.records[i];
        if !s.records[i].hasExpired {
          StaysOpen(s.log, e, s.records[i]);
        }
      }
    }
  }

  /** Marking a record and logging the end of its ticket. */
  lemma EndingSound(s: Timers, i: nat, e: Event, t: Timers)
    requires Sound(s) && i < |s.records| && Rightly(s.log, e) && Ends(e, s.records[i].ticket)
    requires t == s.(records := s.records[i := s.records[i].(hasExpired := true)], log := s.log + [e])
    ensures Orderly(t.log) && Ticketed(t) && forall j :: j in t.active ==> OpenRecord(t, j)
  {
    OneMoreEvent(s.log, e);
    forall j | j in t.active ensures OpenRecord(t, j) {
      assert OpenRecord(s, j);
      if !t.records[j].hasExpired {
        StaysOpen(s.log, e, s.records[j]);
      }
    }
  }

  lemma CancellingSound(s: Timers, i: nat)
    requires Sound(s)
    ensures Sound(Cancelling(s, i))
    ensures var t := Cancelling(s, i);
            && t.active == s.active && t.passive == s.passive && |t.records| == |s.records|
            && (forall j: nat :: j < |s.records| && j != i ==> t.records[j] == s.records[j])
            && (i < |s.records| ==> Expired(t.records, i))
  {
    CancellingPlaced(s, i);
    if i < |s.records| {
      EndingSound(s, i, Cancelled(s.records[i].ticket), Cancelling(s, i));
    }
  }

  lemma ExpiringSound(s: Timers, i: nat, now: Time)
    requires Sound(s) && i in s.active && i < |s.records| && Due(s, i, now)
    ensures Sound(Expiring(s, i, now))
  {
    ExpiringPlaced(s, i, now);
    assert OpenRecord(s, i);
    EndingSound(s, i, Fired(s.records[i].ticket, now), Expiring(s, i, now));
  }

  lemma {:induction false} ActsSound(s: Timers, actions: seq<Action>)
    requires Sound(s)
    ensures Sound(Acts(s, actions))
    decreases |actions|
  {
    if actions != [] {
      match actions[0] {
        case Schedule(at, delay) => SchedulingSound(s, at, delay);
        case Cancel(i) => CancellingSound(s, i);
      }
      ActsSound(Act(s, actions[0]), actions[1..]);
    }
  }

  // ----- what a traversal leaves alone

  ghost predicate EndedSince(s: Timers, t: Timers, ticket: int) {
    exists a :: |s.log| <= a < |t.log| && Ends(t.log[a], ticket)
  }

  /** An active record is still the same timer, and if it was waiting it still is, unless
      the log says otherwise. */
  ghost predicate SameTimer(s: Timers, t: Timers, i: nat) {
    && i < |s.records| && i < |t.records| && i in t.active
    && t.records[i].ticket == s.records[i].ticket
    && t.records[i].started == s.records[i].started && t.records[i].delay == s.records[i].delay
    && (t.records[i].hasExpired != s.records[i].hasExpired ==> EndedSince(s, t, s.records[i].ticket))
  }

  ghost predicate Since(s: Timers, t: Timers) {
    s.log <= t.log && forall i :: i in s.active ==> SameTimer(s, t, i)
  }

  lemma SinceThen(s: Timers, t: Timers, u: Timers)
    requires Since(s, t) && Since(t, u)
    ensures Since(s, u)
  {
    forall i | i in s.active ensures SameTimer(s, u, i) {
      assert SameTimer(s, t, i);
      assert SameTimer(t, u, i);
      if t.records[i].hasExpired != s.records[i].hasExpired {
        var a :| |s.log| <= a < |t.log| && Ends(t.log[a], s.records[i].ticket);
        assert Ends(u.log[a], s.records[i].ticket);
      } else if u.records[i].hasExpired != t.records[i].hasExpired {
        var a :| |t.log| <= a < |u.log| && Ends(u.log[a], t.records[i].ticket);
      }
    }
  }

  lemma SchedulingSince(s: Timers, at: Time, delay: Time)
    requires Sound(s)
    ensures Since(s, Scheduling(s, at, delay))
  {
    var t := Scheduling(s, at, delay);
    forall i | i in s.active ensures SameTimer(s, t, i) {
      PlacedOnce(s, i);
      if s.passive != [] {
        PlacedOnce(s, s.passive[0]);
      }
    }
  }

  lemma EndingSince(s: Timers, i: nat, e: Event, t: Timers)
    requires Sound(s) && i < |s.records| && Ends(e, s.records[i].ticket)
    requires t == s.(records := s.records[i := s.records[i].(hasExpired := true)], log := s.log + [e])
    ensures Since(s, t) && EndedSince(s, t, s.records[i].ticket)
  {
    assert Ends(t.log[|s.log|], s.records[i].ticket);
    forall j | j in s.active ensures SameTimer(s, t, j) {
      PlacedOnce(s, j);
    }
  }

  lemma SinceSelf(s: Timers)
    requires Sound(s)
    ensures Since(s, s)
  {
    forall i | i in s.active ensures SameTimer(s, s, i) {
      PlacedOnce(s, i);
    }
  }

  lemma ActSince(s: Timers, a: Action)
    requires Sound(s)
    ensures Sound(Act(s, a)) && Since(s, Act(s, a))
  {
    ActsSound(s, [a]);
    assert Acts(s, [a]) == Act(s, a) by {
      assert Acts(Act(s, a), [a][1..]) == Act(s, a);
    }
    match a {
      case Schedule(at, delay) => SchedulingSince(s, at, delay);
      case Cancel(i) =>
        if i < |s.records| {
          EndingSince(s, i, Cancelled(s.records[i].ticket), Cancelling(s, i));
        } else {
          SinceSelf(s);
        }
    }
  }

  /** Nothing fires except in a tick. */
  ghost predicate Quiet(s: Timers, t: Timers) {
    s.log <= t.log && forall a :: |s.log| <= a < |t.log| ==> !t.log[a].Fired?
  }

  lemma {:induction false} ActsSince(s: Timers, actions: seq<Action>)
    requires Sound(s)
    ensures Sound(Acts(s, actions)) && Since(s, Acts(s, actions)) && Quiet(s, Acts(s, actions))
    decreases |actions|
  {
    if actions == [] {
      SinceSelf(s);
    } else {
      ActSince(s, actions[0]);
      ActsSince(Act(s, actions[0]), actions[1..]);
      SinceThen(s, Act(s, actions[0]), Acts(s, actions));
    }
  }

  /** One visit: if the timer is due it fires, and nothing else does. */
  lemma VisitSince(s: Timers, i: nat, m: Moment)
    requires Sound(s) && i in s.active && i < |s.records|
    ensures Sound(Visit(s, i, m)) && Since(s, Visit(s, i, m))
    ensures !Due(s, i, m.now) ==> Visit(s, i, m) == s
    ensures Due(s, i, m.now) ==>
              var t := Visit(s, i, m);
              && |s.log| < |t.log| && t.log[|s.log|] == Fired(s.records[i].ticket, m.now)
              && forall a :: |s.log| < a < |t.log| ==> !t.log[a].Fired?
  {
    if Due(s, i, m.now) {
      var mid := Expiring(s, i, m.now);
      ExpiringSound(s, i, m.now);
      EndingSince(s, i, Fired(s.records[i].ticket, m.now), mid);
      ActsSince(mid, m.actions);
      SinceThen(s, mid, Acts(mid, m.actions));
      assert mid.log[|s.log|] == Fired(s.records[i].ticket, m.now);
    } else {
      SinceSelf(s);
    }
  }

  /** What a traversal does, seen from where it began: it fires only timers that were
      active then, and every one that is due, unless it is cancelled first. */
  ghost predicate Swept(s: Timers, t: Timers, visited: seq<nat>, k: nat, f: nat -> Moment)
  {
    && Sound(t) && Since(s, t)
    && (forall a :: |s.log| <= a < |t.log| && t.log[a].Fired? ==> t.log[a].ticket < s.issued)
    && forall j :: 0 <= j < k <= |visited| ==> Handled(s, t, visited[j], f(j))
  }

  ghost predicate Handled(s: Timers, t: Timers, i: nat, m: Moment) {
    i < |s.records| && Due(s, i, m.now) ==> EndedSince(s, t, s.records[i].ticket)
  }

  lemma EndedLonger(s: Timers, t: Timers, u: Timers, ticket: int)
    requires EndedSince(s, t, ticket) && t.log <= u.log
    ensures EndedSince(s, u, ticket)
  {
    var a :| |s.log| <= a < |t.log| && Ends(t.log[a], ticket);
    assert Ends(u.log[a], ticket);
  }

  lemma VisitSwept(s: Timers, t: Timers, k: nat, f: nat -> Moment)
    requires Sound(s) && k < |s.active| && Swept(s, t, s.active, k, f)
    ensures Swept(s, Visit(t, s.active[k], f(k)), s.active, k + 1, f)
  {
    var i, m := s.active[k], f(k);
    var u := Visit(t, i, m);
    assert SameTimer(s, t, i) && i < |s.records| && i < |t.records|;
    VisitSince(t, i, m);
    SinceThen(s, t, u);
    forall j | 0 <= j < k + 1 ensures Handled(s, u, s.active[j], f(j)) {
      if j < k {
        assert Handled(s, t, s.active[j], f(j));
        if s.active[j] < |s.records| && Due(s, s.active[j], f(j).now) {
          EndedLonger(s, t, u, s.records[s.active[j]].ticket);
        }
      } else if Due(s, i, m.now) {
        if Due(t, i, m.now) {
          assert Ends(u.log[|t.log|], s.records[i].ticket);
        } else {
          EndedLonger(s, t, u, s.records[i].ticket);
        }
      }
    }
  }

  lemma {:induction false} VisitFromSwept(s: Timers, t: Timers, k: nat, f: nat -> Moment)
    requires Sound(s) && k <= |s.active| && Swept(s, t, s.active, k, f)
    ensures Swept(s, VisitFrom(t, s.active, k, f), s.active, |s.active|, f)
    decreases |s.active| - k
  {
    if k < |s.active| {
      VisitSwept(s, t, k, f);
      VisitFromSwept(s, Visit(t, s.active[k], f(k)), k + 1, f);
    }
  }

  lemma {:induction false} LiveIs(records: seq<Record>, active: seq<nat>, i: nat)
    ensures i in Live(records, active) <==> i in active && !Expired(records, i)
  {
    if active != [] {
      LiveIs(records, active[1..], i);
    }
  }

  lemma SweepSound(s: Timers)
    requires Sound(s)
    ensures Sound(Sweep(s))
  {
    SweepPlaced(s);
    forall i | i in Sweep(s).active ensures i in s.active {
      LiveIs(s.records, s.active, i);
    }
    forall i | i in Sweep(s).active ensures OpenRecord(Sweep(s), i) {
      assert OpenRecord(s, i);
    }
  }

  /** timer_tick keeps the books; a timer that is due when it begins fires or has been
      cancelled; one scheduled in its course has not fired; and what stays active is
      still waiting. */
  lemma TickSound(s: Timers, f: nat -> Moment)
    requires Sound(s)
    ensures Sound(Tick(s, f)) && s.log <= Tick(s, f).log
    ensures forall k :: 0 <= k < |s.active| ==> Handled(s, Tick(s, f), s.active[k], f(k))
    ensures forall a :: |s.log| <= a < |Tick(s, f).log| && Tick(s, f).log[a].Fired? ==> Tick(s, f).log[a].ticket < s.issued
    ensures forall i :: i in Tick(s, f).active ==> !Expired(Tick(s, f).records, i)
  {
    SinceSelf(s);
    VisitFromSwept(s, s, 0, f);
    var t := VisitFrom(s, s.active, 0, f);
    SweepSound(t);
    forall k | 0 <= k < |s.active| ensures Handled(s, Sweep(t), s.active[k], f(k)) {
      assert Handled(s, t, s.active[k], f(k));
      if s.active[k] < |s.records| && Due(s, s.active[k], f(k).now) {
        EndedLonger(s, t, Sweep(t), s.records[s.active[k]].ticket);
      }
    }
    forall i | i in Sweep(t).active ensures !Expired(t.records, i) {
      LiveIs(t.records, t.active, i);
    }
  }

  // ----- whole runs

  datatype Step = Do(action: Action) | TimerTick(f: nat -> Moment)

  function Next(s: Timers, step: Step): Timers {
    match step
    case Do(a) => Act(s, a)
    case TimerTick(f) => Tick(s, f)
  }

  function Run(s: Timers, steps: seq<Step>): Timers
    decreases |steps|
  {
    if steps == [] then s else Run(Next(s, steps[0]), steps[1..])
  }

  const NUM_TIMERS: nat := 25

  /** timer_init: every record is passive, and none has been used. */
  ghost predicate Fresh(s: Timers) {
    && |s.records| == NUM_TIMERS && s.active == [] && s.log == [] && s.issued == 0
    && (forall i :: 0 <= i < NUM_TIMERS ==> s.records[i].ticket == -1)
    && (forall i: nat :: multiset(s.passive)[i] == if i < NUM_TIMERS then 1 else 0)
  }

  lemma FreshSound(s: Timers)
    requires Fresh(s)
    ensures Sound(s)
  {
    forall i: nat ensures Places(s, i) == if i < |s.records| then 1 else 0 {
      assert multiset(s.passive)[i] == if i < NUM_TIMERS then 1 else 0;
    }
  }

  lemma SoundInRange(s: Timers)
    requires Sound(s)
    ensures InRange(s)
  {
    forall k | 0 <= k < |s.active| ensures s.active[k] < |s.records| {
      PlacedOnce(s, s.active[k]);
    }
    forall k | 0 <= k < |s.passive| ensures s.passive[k] < |s.records| {
      PlacedOnce(s, s.passive[k]);
    }
  }

  lemma NextSound(s: Timers, step: Step)
    requires Sound(s)
    ensures Sound(Next(s, step)) && s.log <= Next(s, step).log
  {
    match step {
      case Do(a) => ActSince(s, a);
      case TimerTick(f) => TickSound(s, f);
    }
  }

  lemma {:induction false} RunSound(s: Timers, steps: seq<Step>)
    requires Sound(s)
    ensures Sound(Run(s, steps)) && s.log <= Run(s, steps).log
    decreases |steps|
  {
    if steps != [] {
      var t := Next(s, steps[0]);
      NextSound(s, steps[0]);
      RunSound(t, steps[1..]);
    }
  }

  /** Over any run, read off the log: a timer fires at most once, never after it was
      cancelled, and never before the time it was scheduled for has passed. */
  lemma TimerDiscipline(s: Timers, steps: seq<Step>, b: nat, ticket: int, at: Time)
    requires Fresh(s) && b < |Run(s, steps).log| && Run(s, steps).log[b] == Fired(ticket, at)
    ensures var log := Run(s, steps).log;
            && (forall a :: 0 <= a < |log| && a != b ==> !log[a].Fired? || log[a].ticket != ticket)
            && (forall a :: 0 <= a < b ==> !log[a].Cancelled? || log[a].ticket != ticket)
            && exists a, started: Time, delay: Time :: 0 <= a < b && log[a] == Scheduled(ticket, started, delay) && started + delay < at
  {
    var log := Run(s, steps).log;
    FreshSound(s);
    RunSound(s, steps);
    assert Rightly(log[..b], log[b]);
    var started: Time, delay: Time :| started + delay < at && Open(log[..b], ticket, started, delay);
    var a :| 0 <= a < b && log[..b][a] == Scheduled(ticket, started, delay);
    assert log[a] == Scheduled(ticket, started, delay);
    forall c | 0 <= c < |log| && c != b ensures !log[c].Fired? || log[c].ticket != ticket {
      if c < b {
        assert !Ends(log[..b][c], ticket);
      } else {
        assert Rightly(log[..c], log[c]) && Ends(log[..c][b], ticket);
      }
    }
    forall c | 0 <= c < b ensures !log[c].Cancelled? || log[c].ticket != ticket {
      assert !Ends(log[..b][c], ticket);
    }
  }
}
