/** Reference-counted objects: an object whose count drops to zero goes to the front of a
    free list, linked through the objects themselves, and is handed out again from there. */
module Objects {
  import opened Shared
  import P = SessionProtocol

  datatype Event = Made(o: nat) | Shared(o: nat) | Dropped(o: nat) | Destroyed(o: nat)

  /** How many references to o a log has left. */
  function References(log: seq<Event>, o: nat): int {
    if log == [] then 0
    else
      var e, before := log[|log| - 1], References(log[..|log| - 1], o);
      if e.o != o || e.Destroyed? then before
      else if e.Dropped? then before - 1
      else before + 1
  }

  /** Only an object without references is made, and only one with references shared or
      dropped; an object is destroyed when its last reference has just been dropped. */
  ghost predicate InOrder(before: seq<Event>, e: Event) {
    match e
    case Made(o) => References(before, o) == 0
    case Shared(o) => References(before, o) > 0
    case Dropped(o) => References(before, o) > 0
    case Destroyed(o) => References(before, o) == 0 && before != [] && before[|before| - 1] == Dropped(o)
  }

  /** And it is destroyed then: nothing happens in between. */
  ghost predicate OrderlyAt(log: seq<Event>, k: nat)
    requires k < |log|
  {
    && InOrder(log[..k], log[k])
    && (log[k].Dropped? && References(log[..k], log[k].o) == 1 ==>
          k + 1 < |log| && log[k + 1] == Destroyed(log[k].o))
  }

  ghost predicate Orderly(log: seq<Event>) {
    forall k :: 0 <= k < |log| ==> OrderlyAt(log, k)
  }

  lemma OneMore(log: seq<Event>, e: Event)
    requires Orderly(log) && InOrder(log, e) && (e.Dropped? ==> References(log, e.o) > 1)
    ensures Orderly(log + [e])
    ensures forall o :: References(log + [e], o) == References(log, o) + Change(e, o)
  {
    var more := log + [e];
    assert more[..|log|] == log;
    forall k | 0 <= k < |more| ensures OrderlyAt(more, k) {
      if k < |log| {
        assert more[..k] == log[..k] && OrderlyAt(log, k);
      }
    }
  }

  function Change(e: Event, o: nat): int {
    if e.o != o || e.Destroyed? then 0 else if e.Dropped? then -1 else 1
  }

  lemma LastDrop(log: seq<Event>, o: nat)
    requires Orderly(log) && References(log, o) == 1
    ensures Orderly(log + [Dropped(o), Destroyed(o)])
    ensures forall p :: References(log + [Dropped(o), Destroyed(o)], p) == References(log, p) - if p == o then 1 else 0
  {
    var mid, more := log + [Dropped(o)], log + [Dropped(o), Destroyed(o)];
    assert mid[..|log|] == log && more[..|log|] == log && more[..|log| + 1] == mid;
    forall k | 0 <= k < |more| ensures OrderlyAt(more, k) {
      if k < |log| {
        assert more[..k] == log[..k] && OrderlyAt(log, k);
      }
    }
  }

  /** Between two makings of an object its destruction comes exactly once: a destroyed
      object is made again before it is destroyed again. */
  lemma {:induction false} DestroyedOnce(log: seq<Event>, j: nat, k: nat, o: nat)
    requires Orderly(log) && j < k < |log| && log[j] == log[k] == Destroyed(o)
    ensures exists m :: j < m < k && log[m] == Made(o)
  {
    assert OrderlyAt(log, k) && OrderlyAt(log, j);
    assert log[..k][k - 1] == log[k - 1];
    assert OrderlyAt(log, k - 1);
    assert log[..j + 1][..j] == log[..j];
    MadeBetween(log, j + 1, k - 1, o);
  }

  lemma {:induction false} MadeBetween(log: seq<Event>, a: nat, b: nat, o: nat)
    requires Orderly(log) && a <= b < |log| && References(log[..a], o) == 0 && References(log[..b], o) > 0
    ensures exists m :: a <= m < b && log[m] == Made(o)
    decreases b - a
  {
    if a < b {
      assert OrderlyAt(log, a);
      assert log[..a + 1][..a] == log[..a];
      if log[a] != Made(o) {
        MadeBetween(log, a + 1, b, o);
      }
    }
  }

  /** The k-th object of a list, or the null pointer, -1. */
  function ListAt(objects: seq<nat>, k: nat): int {
    if k < |objects| then objects[k] else -1
  }

  /** These objects, each once, are linked one to the next from head on. */
  ghost predicate Chain(free: seq<nat>, link: seq<int>, head: int) {
    && head == ListAt(free, 0)
    && (forall k :: 0 <= k < |free| ==> free[k] < |link| && link[free[k]] == ListAt(free, k + 1))
    && forall j, k :: 0 <= j < k < |free| ==> free[j] != free[k]
  }

  lemma ChainPopped(free: seq<nat>, link: seq<int>, head: int)
    requires Chain(free, link, head) && head != -1
    ensures free != [] && head == free[0] && head < |link| && head !in free[1..]
    ensures Chain(free[1..], link, link[head])
  {
    var others := free[1..];
    assert forall k :: 0 <= k < |others| ==> others[k] == free[k + 1];
  }

  lemma HeadAndOthers(objects: seq<nat>)
    requires objects != []
    ensures forall o :: o in objects <==> o == objects[0] || o in objects[1..]
  {
    assert objects == [objects[0]] + objects[1..];
  }

  lemma ChainPushed(free: seq<nat>, link: seq<int>, head: int, o: nat)
    requires Chain(free, link, head) && o !in free && o < |link|
    ensures Chain([o] + free, link[o := head], o)
  {
    var more := [o] + free;
    assert forall k :: 0 < k < |more| ==> more[k] == free[k - 1];
  }

  class Store {
    /** ref_count and free-list link of every object allocated; -1 is the null pointer. */
    var refCount: seq<nat>
    var link: seq<int>
    var freeList: int
    ghost var free: seq<nat>
    ghost var log: seq<Event>

    ghost predicate Chained()
      reads this
    {
      |link| == |refCount| && Chain(free, link, freeList)
    }

    /** Every object is on the free list, once, or has the references the log says. */
    ghost predicate Valid()
      reads this
    {
      && Chained() && Orderly(log)
      && (forall o: nat :: o in free || o >= |refCount| ==> References(log, o) == 0)
      && forall o: nat :: o < |refCount| && o !in free ==> refCount[o] == References(log, o) > 0
    }

    constructor ()
      ensures Valid() && log == [] && free == [] && refCount == []
    {
      refCount, link, freeList, free, log := [], [], -1, [], [];
    }

    /** object_new: a free object if there is one. */
    method New() returns (o: nat)
      requires Valid()
      modifies this
      ensures Valid() && log == old(log) + [Made(o)] && References(old(log), o) == 0
      ensures if old(free) == [] then o == |old(refCount)| && refCount == old(refCount) + [1] && free == []
              else o == old(free)[0] < |refCount| && refCount == old(refCount)[o := 1] && free == old(free)[1..]
    {
      if freeList != -1 {
        ChainPopped(free, link, freeList);
        HeadAndOthers(free);
        o := freeList;
        freeList := link[o];
        refCount := refCount[o := 1];
        free := free[1..];
      } else {
        o := |refCount|;
        refCount, link := refCount + [1], link + [-1];
      }
      OneMore(log, Made(o));
      log := log + [Made(o)];
    }

    /** object_inc_ref. */
    method IncRef(o: nat)
      requires Valid() && References(log, o) > 0
      modifies this
      ensures Valid() && log == old(log) + [Shared(o)] && o < |refCount| && free == old(free)
      ensures refCount == old(refCount)[o := old(refCount)[o] + 1]
    {
      refCount := refCount[o := refCount[o] + 1];
      OneMore(log, Shared(o));
      log := log + [Shared(o)];
    }

    /** object_dec_ref, with object_destroy for the last reference. */
    method DecRef(o: nat)
      requires Valid() && References(log, o) > 0
      modifies this
      ensures Valid() && o < |refCount| && old(refCount)[o] > 0 && refCount == old(refCount)[o := old(refCount)[o] - 1]
      ensures free == if refCount[o] == 0 then [o] + old(free) else old(free)
      ensures log == old(log) + if References(old(log), o) == 1 then [Dropped(o), Destroyed(o)] else [Dropped(o)]
    {
      assert refCount[o] > 0;  // the assertion of the original
      refCount := refCount[o := refCount[o] - 1];
      if refCount[o] == 0 {
        LastDrop(log, o);
        log := log + [Dropped(o), Destroyed(o)];
        ChainPushed(free, link, freeList, o);
        link := link[o := freeList];
        freeList := o;
        free := [o] + free;
      } else {
        OneMore(log, Dropped(o));
        log := log + [Dropped(o)];
      }
    }
  }

  // ----- whole runs

  /** What the session module does with the references to a call. */
  datatype Op = Make(call: P.CallId) | Share(call: P.CallId) | Drop(call: P.CallId)

  /** The reference counts of the session protocol after these. */
  function Counts(ops: seq<Op>): P.Refs {
    if ops == [] then P.Refs(multiset{}, [], false)
    else
      var op, before := ops[|ops| - 1], Counts(ops[..|ops| - 1]);
      if op.Drop? then before.Dec(op.call) else before.Inc(op.call)
  }

  /** A call is made once, and shared and dropped only while there are references to it. */
  predicate LegalAt(ops: seq<Op>, k: nat)
    requires k < |ops|
  {
    if ops[k].Make? then ops[k] !in ops[..k] else ops[k].call in Counts(ops[..k]).count
  }

  predicate Legal(ops: seq<Op>) {
    forall k :: 0 <= k < |ops| ==> LegalAt(ops, k)
  }

  function Referenced(count: multiset<P.CallId>): set<P.CallId> {
    set c | c in count
  }

  /** How many calls there are references to. */
  function Alive(ops: seq<Op>): nat {
    |Referenced(Counts(ops).count)|
  }

  /** The most there have ever been at a time. */
  function Peak(ops: seq<Op>): nat {
    if ops == [] then 0
    else
      var before := Peak(ops[..|ops| - 1]);
      if Alive(ops) > before then Alive(ops) else before
  }

  /** The objects destroyed, in order. */
  function DestroyedObjects(log: seq<Event>): seq<nat> {
    if log == [] then []
    else
      var e := log[|log| - 1];
      DestroyedObjects(log[..|log| - 1]) + if e.Destroyed? then [e.o] else []
  }

  /** Where the destroyed calls were kept. */
  function Homes(home: map<P.CallId, nat>, calls: seq<P.CallId>): seq<int> {
    if calls == [] then []
    else
      var c := calls[|calls| - 1];
      Homes(home, calls[..|calls| - 1]) + [if c in home then home[c] else -1]
  }

  /** Every call that is referenced has an object to itself, with its count; the others
      are free. */
  ghost predicate Placed(refCount: seq<nat>, free: seq<nat>, refs: P.Refs, home: map<P.CallId, nat>) {
    && (forall c :: c in refs.count ==>
          c in home && home[c] < |refCount| && home[c] !in free && refCount[home[c]] == refs.count[c])
    && (forall c, d :: c in refs.count && d in refs.count && c != d ==> home[c] != home[d])
    && forall c :: c in refs.destroyed ==> c in home
  }

  /** The store after some of the run. */
  ghost predicate Keeps(store: Store, ops: seq<Op>, home: map<P.CallId, nat>)
    reads store
  {
    && store.Valid() && Placed(store.refCount, store.free, Counts(ops), home) && !Counts(ops).underflow
    && |store.free| + Alive(ops) == |store.refCount| == Peak(ops)
    && DestroyedObjects(store.log) == Homes(home, Counts(ops).destroyed)
    && forall c :: c in home <==> Make(c) in ops
  }

  lemma CountsMore(ops: seq<Op>, op: Op)
    ensures Counts(ops + [op]) == if op.Drop? then Counts(ops).Dec(op.call) else Counts(ops).Inc(op.call)
    ensures Peak(ops + [op]) == if Alive(ops + [op]) > Peak(ops) then Alive(ops + [op]) else Peak(ops)
  {
    assert (ops + [op])[..|ops|] == ops;
  }

  lemma ReferencedMore(count: multiset<P.CallId>, c: P.CallId)
    ensures Referenced(count + multiset{c}) == Referenced(count) + {c}
    ensures Referenced(count - multiset{c}) == if count[c] == 1 then Referenced(count) - {c} else Referenced(count)
  {
  }

  lemma AliveMore(ops: seq<Op>, op: Op)
    requires op.Drop? ==> op.call in Counts(ops).count
    ensures Alive(ops + [op]) == Alive(ops) + if op.Drop? then (if Counts(ops).count[op.call] == 1 then -1 else 0)
                                              else if op.call in Counts(ops).count then 0 else 1
  {
    CountsMore(ops, op);
    ReferencedMore(Counts(ops).count, op.call);
  }

  lemma DestroyedMore(log: seq<Event>, e: Event)
    ensures DestroyedObjects(log + [e]) == DestroyedObjects(log) + if e.Destroyed? then [e.o] else []
  {
    assert (log + [e])[..|log|] == log;
  }

  lemma DestroyedAtLast(log: seq<Event>, o: nat)
    ensures DestroyedObjects(log + [Dropped(o), Destroyed(o)]) == DestroyedObjects(log) + [o]
  {
    DestroyedMore(log, Dropped(o));
    DestroyedMore(log + [Dropped(o)], Destroyed(o));
    assert log + [Dropped(o)] + [Destroyed(o)] == log + [Dropped(o), Destroyed(o)];
  }

  lemma {:induction false} HomesStay(home: map<P.CallId, nat>, calls: seq<P.CallId>, c: P.CallId, o: nat)
    requires c !in calls
    ensures Homes(home[c := o], calls) == Homes(home, calls)
  {
    if calls != [] {
      HomesStay(home, calls[..|calls| - 1], c, o);
    }
  }

  lemma HomesMore(home: map<P.CallId, nat>, calls: seq<P.CallId>, c: P.CallId)
    requires c in home
    ensures Homes(home, calls + [c]) == Homes(home, calls) + [home[c]]
  {
    assert (calls + [c])[..|calls|] == calls;
  }

  lemma PlacedMade(refCount: seq<nat>, free: seq<nat>, refs: P.Refs, home: map<P.CallId, nat>, c: P.CallId)
    requires Placed(refCount, free, refs, home) && c !in home && forall k :: 0 < k < |free| ==> free[k] != free[0]
    requires forall k :: 0 <= k < |free| ==> free[k] < |refCount|
    ensures free == [] ==> Placed(refCount + [1], [], refs.Inc(c), home[c := |refCount|])
    ensures free != [] ==> Placed(refCount[free[0] := 1], free[1..], refs.Inc(c), home[c := free[0]])
  {
    if free != [] {
      assert free[0] !in free[1..];
    }
  }

  lemma PlacedShared(refCount: seq<nat>, free: seq<nat>, refs: P.Refs, home: map<P.CallId, nat>, c: P.CallId)
    requires Placed(refCount, free, refs, home) && c in refs.count
    ensures Placed(refCount[home[c] := refCount[home[c]] + 1], free, refs.Inc(c), home)
  {
  }

  lemma PlacedDropped(refCount: seq<nat>, free: seq<nat>, refs: P.Refs, home: map<P.CallId, nat>, c: P.CallId)
    requires Placed(refCount, free, refs, home) && c in refs.count
    ensures refCount[home[c]] > 0
    ensures Placed(refCount[home[c] := refCount[home[c]] - 1],
                   if refs.count[c] == 1 then [home[c]] + free else free, refs.Dec(c), home)
  {
  }

  method PerformMake(store: Store, c: P.CallId, ghost ops: seq<Op>, home: map<P.CallId, nat>)
    returns (home': map<P.CallId, nat>)
    requires Keeps(store, ops, home) && Make(c) !in ops
    modifies store
    ensures Keeps(store, ops + [Make(c)], home')
  {
    ghost var refs := Counts(ops);
    PlacedMade(store.refCount, store.free, refs, home, c);
    HomesStay(home, refs.destroyed, c, if store.free == [] then |store.refCount| else store.free[0]);
    CountsMore(ops, Make(c));
    AliveMore(ops, Make(c));
    ghost var log := store.log;
    var o := store.New();
    DestroyedMore(log, Made(o));
    home' := home[c := o];
  }

  method PerformShare(store: Store, c: P.CallId, ghost ops: seq<Op>, home: map<P.CallId, nat>)
    requires Keeps(store, ops, home) && c in Counts(ops).count
    modifies store
    ensures Keeps(store, ops + [Share(c)], home)
  {
    PlacedShared(store.refCount, store.free, Counts(ops), home, c);
    CountsMore(ops, Share(c));
    AliveMore(ops, Share(c));
    DestroyedMore(store.log, Shared(home[c]));
    store.IncRef(home[c]);
  }

  method PerformDrop(store: Store, c: P.CallId, ghost ops: seq<Op>, home: map<P.CallId, nat>)
    requires Keeps(store, ops, home) && c in Counts(ops).count
    modifies store
    ensures Keeps(store, ops + [Drop(c)], home)
  {
    ghost var refs := Counts(ops);
    PlacedDropped(store.refCount, store.free, refs, home, c);
    CountsMore(ops, Drop(c));
    AliveMore(ops, Drop(c));
    HomesMore(home, refs.destroyed, c);
    DestroyedMore(store.log, Dropped(home[c]));
    DestroyedAtLast(store.log, home[c]);
    store.DecRef(home[c]);
  }

  method Perform(store: Store, op: Op, ghost ops: seq<Op>, home: map<P.CallId, nat>) returns (home': map<P.CallId, nat>)
    requires Keeps(store, ops, home) && Legal(ops + [op])
    modifies store
    ensures Keeps(store, ops + [op], home')
  {
    home' := home;
    assert (ops + [op])[..|ops|] == ops && LegalAt(ops + [op], |ops|);
    match op {
      case Make(c) => home' := PerformMake(store, c, ops, home);
      case Share(c) => PerformShare(store, c, ops, home);
      case Drop(c) => PerformDrop(store, c, ops, home);
    }
  }

  lemma LegalSoFar(ops: seq<Op>, k: nat)
    requires Legal(ops) && k <= |ops|
    ensures Legal(ops[..k])
  {
    forall j | 0 <= j < k ensures LegalAt(ops[..k], j) {
      assert ops[..k][..j] == ops[..j] && LegalAt(ops, j);
    }
  }

  lemma OneOpMore(ops: seq<Op>, k: nat)
    requires k < |ops|
    ensures ops[..k + 1] == ops[..k] + [ops[k]]
  {
  }

  method EmptyStore() returns (store: Store)
    ensures fresh(store) && Keeps(store, [], map[])
  {
    store := new Store();
  }

  method KeepOn(store: Store, ops: seq<Op>, k: nat, home: map<P.CallId, nat>) returns (home': map<P.CallId, nat>)
    requires Legal(ops) && k < |ops| && Keeps(store, ops[..k], home)
    modifies store
    ensures Keeps(store, ops[..k + 1], home')
  {
    OneOpMore(ops, k);
    LegalSoFar(ops, k + 1);
    home' := Perform(store, ops[k], ops[..k], home);
  }

  lemma AllOf(ops: seq<Op>)
    ensures ops[..|ops|] == ops && ops[..0] == []
  {
  }

  /** Any legal run of making, sharing and dropping calls.  Each call that is referenced
      has an object of its own, whose count is the one of the session protocol; calls
      are destroyed in their objects in the protocol's order; and there are never more
      objects than there have been calls at a time. */
  method Keep(ops: seq<Op>) returns (store: Store, home: map<P.CallId, nat>)
    requires Legal(ops)
    ensures fresh(store) && Keeps(store, ops, home)
  {
    store := EmptyStore();
    home := map[];
    AllOf(ops);
    for k := 0 to |ops|
      invariant fresh(store) && Keeps(store, ops[..k], home)
    {
      home := KeepOn(store, ops, k, home);
    }
  }
}
