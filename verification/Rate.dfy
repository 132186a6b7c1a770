/** The rate generators: a callback at every point of a schedule, made up for when the
    timer is late, and the schedule whose rate changes from phase to phase. */
module Rate {
  import opened Shared

  // ----- the schedule

  /** The k-th schedule point: d gives the inter-arrival times in the order drawn. */
  function Point(start: real, d: nat -> real, k: nat): real {
    if k == 0 then start + d(0) else Point(start, d, k - 1) + d(k)
  }

  ghost predicate Forward(d: nat -> real) {
    forall k: nat :: d(k) >= 0.0
  }

  lemma {:induction false} PointsAscend(start: real, d: nat -> real, j: nat, k: nat)
    requires Forward(d) && j <= k
    ensures Point(start, d, j) <= Point(start, d, k)
    decreases k - j
  {
    if j < k {
      PointsAscend(start, d, j, k - 1);
    }
  }

  /** At a constant rate the points come at regular intervals, the first one interval after
      the start. */
  lemma {:induction false} PointsRegular(start: real, d: nat -> real, iat: real, k: nat)
    requires forall j: nat :: j <= k ==> d(j) == iat
    ensures Point(start, d, k) == start + (k + 1) as real * iat
    decreases k
  {
    if k > 0 {
      PointsRegular(start, d, iat, k - 1);
    }
  }

  /** n is the number of schedule points strictly before now. */
  ghost predicate PointsBefore(start: real, d: nat -> real, now: real, n: nat) {
    (forall k: nat :: k < n ==> Point(start, d, k) < now) && forall k: nat :: k >= n ==> Point(start, d, k) >= now
  }

  class Generator {
    const d: nat -> real
    /** Whether the n-th callback asks for an end. */
    const stops: nat -> bool
    var nextTime: real
    var done: bool
    /** When the pending timer is due. */
    var timer: Option<real>
    var calls: nat
    ghost var start: real
    /** The time of the last timer callback. */
    ghost var latest: real

    /** The next point is the sum of the inter-arrival times drawn so far: it does not
        depend on when the timer fired. */
    ghost predicate OnSchedule()
      reads this
    {
      && Forward(d) && calls >= 1 && nextTime == Point(start, d, calls - 1)
      && done == stops(calls - 1) && (forall k: nat :: k < calls - 1 ==> !stops(k))
      && (forall k: nat :: k < calls - 1 ==> Point(start, d, k) < latest)
    }

    ghost predicate Valid()
      reads this
    {
      OnSchedule() && (!done ==> timer == Some(nextTime))
    }

    /** rate_generator_start: the first callback comes at once. */
    constructor (d: nat -> real, stops: nat -> bool, now: real)
      requires Forward(d)
      ensures Valid() && calls == 1 && start == latest == now && this.d == d && this.stops == stops
    {
      this.d, this.stops := d, stops;
      nextTime, timer := now + d(0), Some(now + d(0));
      start, latest := now, now;
      done, calls := stops(0), 1;
    }

    /** The body of the loop of tick. */
    method CallBack()
      requires OnSchedule() && !done && nextTime < latest
      modifies `nextTime, `done, `calls
      ensures OnSchedule() && calls == old(calls) + 1
    {
      nextTime := nextTime + d(calls);
      done := stops(calls);
      calls := calls + 1;
    }

    /** The timer callback, however late.  The loop ends because the schedule gets past
        now, which `limit` bears witness to. */
    method Tick(now: real, ghost limit: nat)
      requires Valid() && timer.Some? && latest <= now <= Point(start, d, limit)
      modifies this
      ensures start == old(start) && latest == now
      ensures old(done) ==> done && calls == old(calls)
      ensures !old(done) ==> Valid() && calls >= old(calls)
      ensures !done ==> PointsBefore(start, d, now, calls - 1)
    {
      timer := None;
      latest := now;
      if done {
        return;
      }
      CatchUp(now, limit);
      if done {
        return;
      }
      FromHereOn(start, d, now, calls - 1);
      timer := Some(now + (nextTime - now));
    }

    /** The loop of tick. */
    method CatchUp(now: real, ghost limit: nat)
      requires OnSchedule() && !done && latest == now <= Point(start, d, limit)
      modifies `nextTime, `done, `calls
      ensures OnSchedule() && calls >= old(calls) && (done || nextTime >= now)
    {
      while now > nextTime
        invariant OnSchedule() && calls >= old(calls) && !done
        decreases limit + 1 - calls
      {
        Ahead(start, d, limit, calls - 1, now);
        CallBack();
        if done {
          return;
        }
      }
    }
  }

  lemma Ahead(start: real, d: nat -> real, limit: nat, k: nat, now: real)
    requires Forward(d) && Point(start, d, k) < now <= Point(start, d, limit)
    ensures k < limit
  {
    if k >= limit {
      PointsAscend(start, d, limit, k);
    }
  }

  lemma FromHereOn(start: real, d: nat -> real, now: real, n: nat)
    requires Forward(d) && Point(start, d, n) >= now
    ensures forall k: nat :: k >= n ==> Point(start, d, k) >= now
  {
    forall k: nat | k >= n ensures Point(start, d, k) >= now {
      PointsAscend(start, d, n, k);
    }
  }

  /** Any firings of the timer, however late: the callback has been called once at the
      start and once for every schedule point that has passed, unless it asked for an end. */
  method Drive(d: nat -> real, stops: nat -> bool, start: real, firings: seq<real>) returns (calls: nat, done: bool)
    requires Forward(d)
    requires forall i :: 0 <= i < |firings| ==> start <= firings[i] && exists n: nat :: firings[i] <= Point(start, d, n)
    requires forall i, j :: 0 <= i < j < |firings| ==> firings[i] <= firings[j]
    ensures calls >= 1 && forall k: nat :: k < calls - 1 ==> !stops(k)
    ensures done == stops(calls - 1)
    ensures !done && firings != [] ==> PointsBefore(start, d, firings[|firings| - 1], calls - 1)
    ensures firings != [] ==> forall k: nat :: k < calls - 1 ==> Point(start, d, k) < firings[|firings| - 1]
  {
    var g := new Generator(d, stops, start);
    for i := 0 to |firings|
      invariant fresh(g) && g.Valid() && g.start == start && g.d == d && g.stops == stops
      invariant g.latest == if i == 0 then start else firings[i - 1]
      invariant !g.done && i > 0 ==> PointsBefore(start, d, firings[i - 1], g.calls - 1)
    {
      if g.done {
        break;
      }
      ghost var limit: nat :| firings[i] <= Point(start, d, limit);
      g.Tick(firings[i], limit);
    }
    calls, done := g.calls, g.done;
  }

  // ----- a rate that varies

  datatype Phase = Phase(iat: real, duration: real)

  /** current_rate and duration_in_current_rate. */
  datatype Position = Position(currentRate: nat, spent: real)

  function Ceil(x: real): int {
    -((-x).Floor)
  }

  /** How many arrivals a phase has. */
  function PhaseLength(p: Phase): (n: nat)
    requires p.iat > 0.0
    ensures n >= 1
  {
    var c := Ceil(p.duration / p.iat);
    if c < 1 then 1 else c
  }

  ghost predicate Positive(phases: seq<Phase>) {
    phases != [] && forall i :: 0 <= i < |phases| ==> phases[i].iat > 0.0
  }

  function Next(phases: seq<Phase>, at: Position): Position
    requires at.currentRate < |phases|
  {
    var spent := at.spent + phases[at.currentRate].iat;
    if spent >= phases[at.currentRate].duration then
      Position(if at.currentRate + 1 >= |phases| then 0 else at.currentRate + 1, 0.0)
    else Position(at.currentRate, spent)
  }

  /** The next n inter-arrival times, and where they lead. */
  function Arrivals(phases: seq<Phase>, at: Position, n: nat): (r: (seq<real>, Position))
    requires at.currentRate < |phases|
    ensures |r.0| == n && r.1.currentRate < |phases|
    decreases n
  {
    if n == 0 then ([], at)
    else
      var r := Arrivals(phases, Next(phases, at), n - 1);
      ([phases[at.currentRate].iat] + r.0, r.1)
  }

  function Repeat(x: real, n: nat): (s: seq<real>)
    ensures |s| == n
  {
    if n == 0 then [] else [x] + Repeat(x, n - 1)
  }

  /** What the phases from the i-th on contribute to a pass. */
  function PassFrom(phases: seq<Phase>, i: nat): seq<real>
    requires Positive(phases) && i <= |phases|
    decreases |phases| - i
  {
    if i == |phases| then [] else Repeat(phases[i].iat, PhaseLength(phases[i])) + PassFrom(phases, i + 1)
  }

  /** The length of a phase is the first number of arrivals that uses up its duration. */
  lemma LastOfPhase(p: Phase, k: nat)
    requires p.iat > 0.0 && k >= 1
    ensures k as real * p.iat >= p.duration <==> k >= PhaseLength(p)
  {
    var q := p.duration / p.iat;
    assert q * p.iat == p.duration;
    if k as real >= q {
      assert (k as real - q) * p.iat >= 0.0;
    } else {
      assert (q - k as real) * p.iat > 0.0;
    }
  }

  function After(phases: seq<Phase>, i: nat): nat {
    if i + 1 >= |phases| then 0 else i + 1
  }

  lemma SpentOneMore(k: nat, iat: real)
    ensures (k + 1) as real * iat == k as real * iat + iat
  {
  }

  /** From the k-th arrival of a phase on. */
  lemma {:induction false} PhaseRuns(phases: seq<Phase>, i: nat, k: nat, spent: real)
    requires Positive(phases) && i < |phases| && k < PhaseLength(phases[i]) && spent == k as real * phases[i].iat
    ensures Arrivals(phases, Position(i, spent), PhaseLength(phases[i]) - k)
         == (Repeat(phases[i].iat, PhaseLength(phases[i]) - k), Position(After(phases, i), 0.0))
    decreases PhaseLength(phases[i]) - k
  {
    var p := phases[i];
    var n := PhaseLength(p) - k;
    SpentOneMore(k, p.iat);
    LastOfPhase(p, k + 1);
    if k + 1 < PhaseLength(p) {
      PhaseRuns(phases, i, k + 1, spent + p.iat);
    } else {
      assert n == 1 && Next(phases, Position(i, spent)) == Position(After(phases, i), 0.0);
    }
  }

  lemma {:induction false} ArrivalsSplit(phases: seq<Phase>, at: Position, m: nat, n: nat)
    requires at.currentRate < |phases|
    ensures var (times, mid) := Arrivals(phases, at, m);
            var (more, end) := Arrivals(phases, mid, n);
            Arrivals(phases, at, m + n) == (times + more, end)
    decreases m
  {
    if m == 0 {
      assert [] + Arrivals(phases, at, n).0 == Arrivals(phases, at, n).0;
    } else {
      ArrivalsSplit(phases, Next(phases, at), m - 1, n);
      var head, times := [phases[at.currentRate].iat], Arrivals(phases, Next(phases, at), m - 1);
      var more := Arrivals(phases, times.1, n);
      assert head + (times.0 + more.0) == (head + times.0) + more.0;
    }
  }

  lemma ArrivalsOne(phases: seq<Phase>, at: Position)
    requires at.currentRate < |phases|
    ensures Arrivals(phases, at, 1) == ([phases[at.currentRate].iat], Next(phases, at))
  {
    var rest := Arrivals(phases, Next(phases, at), 0);
    assert [phases[at.currentRate].iat] + rest.0 == [phases[at.currentRate].iat];
  }

  /** A pass, from the i-th phase on, gives every phase its arrivals and ends where the
      next pass begins. */
  lemma {:induction false} PassRuns(phases: seq<Phase>, i: nat)
    requires Positive(phases) && i < |phases|
    ensures Arrivals(phases, Position(i, 0.0), |PassFrom(phases, i)|) == (PassFrom(phases, i), Position(0, 0.0))
    decreases |phases| - i
  {
    var n := PhaseLength(phases[i]);
    PhaseRuns(phases, i, 0, 0.0);
    if i + 1 < |phases| {
      PassRuns(phases, i + 1);
      ArrivalsSplit(phases, Position(i, 0.0), n, |PassFrom(phases, i + 1)|);
    } else {
      assert PassFrom(phases, i + 1) == [];
      assert PassFrom(phases, i) == Repeat(phases[i].iat, n);
    }
  }

  class VariableRate {
    const phases: seq<Phase>
    var currentRate: nat
    var durationInCurrentRate: real

    ghost function View(): Position
      reads this
    {
      Position(currentRate, durationInCurrentRate)
    }

    constructor (phases: seq<Phase>)
      ensures this.phases == phases && View() == Position(0, 0.0)
    {
      this.phases := phases;
      currentRate, durationInCurrentRate := 0, 0.0;
    }

    /** next_arrival_time_variable. */
    method NextArrivalTime() returns (next: real)
      requires currentRate < |phases|
      modifies this
      ensures View() == Next(phases, old(View())) && next == phases[old(currentRate)].iat
      ensures currentRate < |phases|
    {
      next := phases[currentRate].iat;
      durationInCurrentRate := durationInCurrentRate + next;
      if durationInCurrentRate >= phases[currentRate].duration {
        currentRate := currentRate + 1;
        if currentRate >= |phases| {
          currentRate := 0;
        }
        durationInCurrentRate := 0.0;
      }
    }
  }

  /** Any number of whole passes. */
  method Passes(phases: seq<Phase>, passes: nat) returns (times: seq<seq<real>>)
    requires Positive(phases)
    ensures |times| == passes && forall i :: 0 <= i < passes ==> times[i] == PassFrom(phases, 0)
  {
    var v := new VariableRate(phases);
    times := [];
    for i := 0 to passes
      invariant fresh(v) && v.phases == phases && v.View() == Position(0, 0.0)
      invariant |times| == i && forall j :: 0 <= j < i ==> times[j] == PassFrom(phases, 0)
    {
      PassRuns(phases, 0);
      var pass := Take(v, |PassFrom(phases, 0)|);
      times := times + [pass];
    }
  }

  method Take(v: VariableRate, n: nat) returns (times: seq<real>)
    requires v.currentRate < |v.phases|
    modifies v
    ensures (times, v.View()) == Arrivals(v.phases, old(v.View()), n)
  {
    times := [];
    var k := 0;
    while k < n
      invariant k <= n && v.currentRate < |v.phases|
      invariant (times, v.View()) == Arrivals(v.phases, old(v.View()), k)
    {
      ghost var at := v.View();
      var next := v.NextArrivalTime();
      ArrivalsSplit(v.phases, old(v.View()), k, 1);
      ArrivalsOne(v.phases, at);
      times := times + [next];
      k := k + 1;
    }
  }
}
