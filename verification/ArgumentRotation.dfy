/** getopt's block exchange: the non-options argv[start..mid) and the options
    argv[mid..end) change places, each block keeping its order, in cycles. */
module ArgumentRotation {
  import opened Orbits

  /** A plan of the cycles: which cycle comes through a place, and at which step. */
  datatype Plan = Plan(a: nat, b: nat, ncycle: nat, cyclelen: nat, lane: seq<nat>, age: seq<nat>, place: map<(nat, nat), nat>)
  {
    /** Where the loop moves on to from place p, both counted from `start`. */
    function Next(p: nat): nat {
      if p >= a then p - a else p + b
    }

    /** Where the element that belongs in place p comes from. */
    function From(p: nat): nat {
      if p < b then p + a else p - b
    }

    ghost predicate Valid() {
      && a > 0 && b > 0 && ncycle > 0 && cyclelen > 0
      && |lane| == |age| == a + b && ncycle <= b
      && (forall p :: 0 <= p < a + b ==> lane[p] < ncycle && age[p] < cyclelen)
      && (forall p :: 0 <= p < a + b ==>
            && lane[Next(p)] == lane[p]
            && age[Next(p)] == if age[p] + 1 == cyclelen then 0 else age[p] + 1)
      && (forall p :: 0 <= p < a + b ==> (lane[p], age[p]) in place && place[(lane[p], age[p])] == p)
      && (forall p :: a <= p < a + ncycle ==> lane[p] == p - a && age[p] == 0)
    }
  }

  ghost function PlanOnCircle(w: Circle, a: nat, b: nat): Plan
    requires w.Valid() && w.n == a + b
  {
    var lane := seq(a + b, p requires 0 <= p => w.Lane(p));
    var age := seq(a + b, p requires 0 <= p => w.Age(a, p));
    Plan(a, b, w.lanes, w.len, lane, age, Places(w, a, a + b))
  }

  /** The place of each lane and age among the first k places. */
  ghost function Places(w: Circle, a: nat, k: nat): (m: map<(nat, nat), nat>)
    requires w.Valid() && k <= w.n
    ensures forall p: nat :: p < k ==> (w.Lane(p), w.Age(a, p)) in m && m[(w.Lane(p), w.Age(a, p))] == p
    ensures forall x :: x in m ==> exists p: nat :: p < k && x == (w.Lane(p), w.Age(a, p))
  {
    if k == 0 then map[]
    else
      var m := Places(w, a, k - 1);
      assert (w.Lane(k - 1), w.Age(a, k - 1)) !in m by {
        if (w.Lane(k - 1), w.Age(a, k - 1)) in m {
          var p: nat :| p < k - 1 && (w.Lane(k - 1), w.Age(a, k - 1)) == (w.Lane(p), w.Age(a, p));
          SamePlace(w, a, p, k - 1);
        }
      }
      m[(w.Lane(k - 1), w.Age(a, k - 1)) := k - 1]
  }

  lemma PlanSteps(w: Circle, a: nat, b: nat, p: nat)
    requires w.Valid() && w.n == a + b && w.b == b && p < a + b
    ensures var plan := PlanOnCircle(w, a, b);
            && plan.Next(p) < a + b && plan.lane[plan.Next(p)] == plan.lane[p]
            && plan.age[plan.Next(p)] == if plan.age[p] + 1 == w.len then 0 else plan.age[p] + 1
  {
    StepAges(w, a, p, if p >= a then p - a else p + b, if p >= a then 1 else 0);
  }

  lemma PlanStart(w: Circle, a: nat, p: nat, qa: nat)
    requires w.Valid() && qa * w.lanes == a && a <= p < a + w.lanes
    ensures w.Lane(p) == p - a && w.Age(a, p) == 0
  {
    ModUnique(p, qa, w.lanes, p - a);
    ModUnique(a, qa, w.lanes, 0);
    assert p / w.lanes == a / w.lanes;
    AgeOfSelf(w, a);
  }

  /** ncycle and cyclelen, as the code computes them, fit such a plan. */
  lemma PlanOf(a: nat, b: nat) returns (plan: Plan)
    requires a > 0 && b > 0
    ensures plan.Valid() && plan.a == a && plan.b == b
    ensures plan.ncycle == Gcd(a, b) && plan.cyclelen == (a + b) / Gcd(a, b)
  {
    var w := CircleOf(a + b, b);
    plan := PlanOnCircle(w, a, b);
    GcdOfSum(a, b);
    ModUnique(w.len * w.lanes, w.len, w.lanes, 0);
    var qa, qb := GcdDivides(a, b);
    PositiveFactor(qb, w.lanes);
    MulAtLeast(qb, w.lanes);
    forall p | 0 <= p < a + b
      ensures plan.lane[plan.Next(p)] == plan.lane[p]
      ensures plan.age[plan.Next(p)] == if plan.age[p] + 1 == w.len then 0 else plan.age[p] + 1
    {
      PlanSteps(w, a, b, p);
    }
    forall p | a <= p < a + w.lanes ensures plan.lane[p] == p - a && plan.age[p] == 0 {
      PlanStart(w, a, p, qa);
    }
  }

  lemma GcdOfSum(a: nat, b: nat)
    requires a > 0 && b > 0
    ensures Gcd(b, a + b) == Gcd(a, b)
  {
    ModUnique(b, 0, a + b, b);
    ModShift(a, 1, b);
  }

  function Exchanged<T>(s: seq<T>, start: nat, mid: nat, end: nat): seq<T>
    requires start <= mid <= end <= |s|
  {
    s[..start] + s[mid..end] + s[start..mid] + s[end..]
  }

  function Swapped<T>(s: seq<T>, x: nat, y: nat): seq<T>
    requires x < |s| && y < |s|
  {
    s[x := s[y]][y := s[x]]
  }

  method Swap<T>(nargv: array<T>, pos: nat, cstart: nat)
    requires pos < nargv.Length && cstart < nargv.Length
    modifies nargv
    ensures nargv[..] == Swapped(old(nargv[..]), pos, cstart)
  {
    var swap := nargv[pos];
    nargv[pos] := nargv[cstart];
    nargv[cstart] := swap;
  }

  /** The element that place p of argv[start..) holds when cycles before the i-th
      are done and the i-th, j steps on, has the element of place `held` in hand. */
  ghost function Due<T>(plan: Plan, was: seq<T>, start: nat, i: nat, j: nat, held: nat, p: nat): T
    requires plan.Valid() && start + plan.a + plan.b <= |was| && p < plan.a + plan.b
  {
    if plan.lane[p] < i || (plan.lane[p] == i && 1 <= plan.age[p] <= j) then was[start + plan.From(p)]
    else if plan.lane[p] == i && plan.age[p] == 0 && held < plan.a + plan.b then was[start + held]
    else was[start + p]
  }

  ghost predicate Holds<T>(plan: Plan, was: seq<T>, now: seq<T>, start: nat, i: nat, j: nat, held: nat, p: nat)
    requires plan.Valid() && start + plan.a + plan.b <= |was| == |now| && p < plan.a + plan.b
  {
    now[start + p] == Due(plan, was, start, i, j, held, p)
  }

  /** Progress of the exchange of argv[start..), the rest of argv being as it was. */
  ghost predicate Cycling<T>(plan: Plan, was: seq<T>, now: seq<T>, start: nat, i: nat, j: nat, held: nat) {
    && plan.Valid() && |was| == |now| && start + plan.a + plan.b <= |was|
    && (forall k :: 0 <= k < |was| && !(start <= k < start + plan.a + plan.b) ==> now[k] == was[k])
    && (forall p: nat :: p < plan.a + plan.b ==> Holds(plan, was, now, start, i, j, held, p))
  }

  /** The cycle through cstart is at place pos after j steps. */
  ghost predicate At(plan: Plan, i: nat, j: nat, pos: nat) {
    && plan.Valid() && pos < plan.a + plan.b && plan.lane[pos] == i
    && plan.age[pos] == if j == plan.cyclelen then 0 else j
  }

  ghost function Held(plan: Plan, i: nat, j: nat, pos: nat): nat
    requires plan.Valid() && i < plan.ncycle
  {
    if j == plan.cyclelen then plan.From(plan.a + i) else pos
  }

  /** Only the i-th cycle's first place has lane i and age 0. */
  lemma FirstPlace(plan: Plan, i: nat, p: nat)
    requires plan.Valid() && i < plan.ncycle && p < plan.a + plan.b
    requires plan.lane[p] == i && plan.age[p] == 0
    ensures p == plan.a + i
  {
    assert plan.lane[plan.a + i] == i && plan.age[plan.a + i] == 0;
  }

  lemma NothingDone<T>(plan: Plan, was: seq<T>, start: nat)
    requires plan.Valid() && start + plan.a + plan.b <= |was|
    ensures Cycling(plan, was, was, start, 0, 0, plan.a + plan.b)
  {
  }

  lemma CyclingBegins<T>(plan: Plan, was: seq<T>, now: seq<T>, start: nat, i: nat)
    requires Cycling(plan, was, now, start, i, 0, plan.a + plan.b) && i < plan.ncycle
    ensures At(plan, i, 0, plan.a + i) && Cycling(plan, was, now, start, i, 0, Held(plan, i, 0, plan.a + i))
  {
    assert plan.lane[plan.a + i] == i;
    var held := plan.a + i;
    forall p: nat | p < plan.a + plan.b ensures Holds(plan, was, now, start, i, 0, held, p) {
      assert Holds(plan, was, now, start, i, 0, plan.a + plan.b, p);
      if plan.lane[p] == i && plan.age[p] == 0 {
        FirstPlace(plan, i, p);
      }
    }
  }

  /** Everything but two places stays as it was due. */
  lemma StepLeaves<T>(plan: Plan, was: seq<T>, start: nat, i: nat, j: nat, held: nat, held': nat, p: nat, next: nat)
    requires plan.Valid() && start + plan.a + plan.b <= |was| && p < plan.a + plan.b && next < plan.a + plan.b
    requires i < plan.ncycle && plan.lane[next] == i && plan.age[next] == if j + 1 == plan.cyclelen then 0 else j + 1
    requires j < plan.cyclelen && p != next && p != plan.a + i
    ensures Due(plan, was, start, i, j, held, p) == Due(plan, was, start, i, j + 1, held', p)
  {
    if plan.lane[p] == i {
      assert plan.age[p] != plan.age[next];
      if plan.age[p] == 0 {
        FirstPlace(plan, i, p);
      }
    }
  }

  lemma NextAges(plan: Plan, i: nat, j: nat, pos: nat)
    requires At(plan, i, j, pos) && i < plan.ncycle && j < plan.cyclelen
    ensures var next := plan.Next(pos);
            && At(plan, i, j + 1, next) && plan.From(next) == pos
            && (j + 1 == plan.cyclelen <==> next == plan.a + i)
  {
    var next := plan.Next(pos);
    assert plan.lane[next] == i;
    assert plan.lane[plan.a + i] == i && plan.age[plan.a + i] == 0;
    if j + 1 == plan.cyclelen {
      FirstPlace(plan, i, next);
    }
  }

  /** The two places of a swap. */
  lemma StepPlaces<T>(plan: Plan, was: seq<T>, now: seq<T>, start: nat, i: nat, j: nat, pos: nat, p: nat)
    requires At(plan, i, j, pos) && i < plan.ncycle && j < plan.cyclelen
    requires Cycling(plan, was, now, start, i, j, Held(plan, i, j, pos))
    requires p == plan.Next(pos) || p == plan.a + i
    ensures var next := plan.Next(pos);
            && At(plan, i, j + 1, next) && p < plan.a + plan.b
            && Holds(plan, was, Swapped(now, start + next, start + plan.a + i), start, i, j + 1, Held(plan, i, j + 1, next), p)
  {
    var next, c := plan.Next(pos), plan.a + i;
    NextAges(plan, i, j, pos);
    assert plan.lane[c] == i && plan.age[c] == 0 && plan.lane[next] == i;
    assert Holds(plan, was, now, start, i, j, pos, c) && Holds(plan, was, now, start, i, j, pos, next);
  }

  /** One swap moves the cycle one step on. */
  lemma CyclingStep<T>(plan: Plan, was: seq<T>, now: seq<T>, start: nat, i: nat, j: nat, pos: nat)
    requires At(plan, i, j, pos) && i < plan.ncycle && j < plan.cyclelen
    requires Cycling(plan, was, now, start, i, j, Held(plan, i, j, pos))
    ensures var next := plan.Next(pos);
            && At(plan, i, j + 1, next)
            && Cycling(plan, was, Swapped(now, start + next, start + plan.a + i), start, i, j + 1, Held(plan, i, j + 1, next))
  {
    var next, c := plan.Next(pos), plan.a + i;
    NextAges(plan, i, j, pos);
    var then' := Swapped(now, start + next, start + c);
    var j', held := j + 1, Held(plan, i, j + 1, next);
    forall p: nat | p < plan.a + plan.b ensures Holds(plan, was, then', start, i, j', held, p) {
      if p == next || p == c {
        StepPlaces(plan, was, now, start, i, j, pos, p);
      } else {
        assert Holds(plan, was, now, start, i, j, pos, p);
        StepLeaves(plan, was, start, i, j, pos, held, p, next);
      }
    }
  }

  lemma CyclingNext<T>(plan: Plan, was: seq<T>, now: seq<T>, start: nat, i: nat, pos: nat)
    requires i < plan.ncycle && plan.Valid()
    requires Cycling(plan, was, now, start, i, plan.cyclelen, Held(plan, i, plan.cyclelen, pos))
    ensures Cycling(plan, was, now, start, i + 1, 0, plan.a + plan.b)
  {
    var i', none := i + 1, plan.a + plan.b;
    forall p: nat | p < plan.a + plan.b ensures Holds(plan, was, now, start, i', 0, none, p) {
      assert Holds(plan, was, now, start, i, plan.cyclelen, plan.From(plan.a + i), p);
      if plan.lane[p] == i && plan.age[p] == 0 {
        FirstPlace(plan, i, p);
      }
    }
  }

  lemma CyclingEnds<T>(plan: Plan, was: seq<T>, now: seq<T>, start: nat, i: nat)
    requires Cycling(plan, was, now, start, i, 0, plan.a + plan.b) && i == plan.ncycle
    ensures now == Exchanged(was, start, start + plan.a, start + plan.a + plan.b)
  {
    forall k | 0 <= k < |was|
      ensures now[k] == Exchanged(was, start, start + plan.a, start + plan.a + plan.b)[k]
    {
      if start <= k < start + plan.a + plan.b {
        assert plan.lane[k - start] < plan.ncycle;
        assert Holds(plan, was, now, start, i, 0, plan.a + plan.b, k - start);
      }
    }
  }

  /** The inner loop: one cycle, started at cstart. */
  method RunCycle<T>(start: nat, mid: nat, end: nat, nargv: array<T>, i: nat, cyclelen: nat,
                     ghost plan: Plan, ghost was: seq<T>)
    requires start < mid < end <= nargv.Length
    requires Cycling(plan, was, nargv[..], start, i, 0, end - start)
    requires plan.a == mid - start && plan.b == end - mid && i < plan.ncycle && cyclelen == plan.cyclelen
    modifies nargv
    ensures Cycling(plan, was, nargv[..], start, i + 1, 0, end - start)
  {
    var cstart := mid + i;
    var pos := cstart;
    CyclingBegins(plan, was, nargv[..], start, i);
    for j := 0 to cyclelen
      invariant start <= pos < end && At(plan, i, j, pos - start)
      invariant Cycling(plan, was, nargv[..], start, i, j, Held(plan, i, j, pos - start))
    {
      CyclingStep(plan, was, nargv[..], start, i, j, pos - start);
      if pos >= mid {
        pos := pos - (mid - start);
      } else {
        pos := pos + (end - mid);
      }
      Swap(nargv, pos, cstart);
    }
    CyclingNext(plan, was, nargv[..], start, i, pos - start);
  }

  method PermuteArgs<T>(panonoptStart: nat, panonoptEnd: nat, optEnd: nat, nargv: array<T>)
    requires panonoptStart < panonoptEnd < optEnd <= nargv.Length
    modifies nargv
    ensures nargv[..] == Exchanged(old(nargv[..]), panonoptStart, panonoptEnd, optEnd)
  {
    var nnonopts := panonoptEnd - panonoptStart;
    var nopts := optEnd - panonoptEnd;
    var ncycle := ComputeGcd(nnonopts, nopts);
    ghost var plan := PlanOf(nnonopts, nopts);
    ghost var was := nargv[..];
    assert optEnd - panonoptStart == nnonopts + nopts;
    var cyclelen := (optEnd - panonoptStart) / ncycle;
    NothingDone(plan, was, panonoptStart);
    for i := 0 to ncycle
      invariant Cycling(plan, was, nargv[..], panonoptStart, i, 0, optEnd - panonoptStart)
    {
      RunCycle(panonoptStart, panonoptEnd, optEnd, nargv, i, cyclelen, plan, was);
    }
    CyclingEnds(plan, was, nargv[..], panonoptStart, ncycle);
  }
}
