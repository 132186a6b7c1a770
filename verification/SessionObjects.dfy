/** The calls of a session and the memory they are kept in: what a run of the protocol does
    with references is what the object store is asked to do. */
module SessionObjects {
  import opened Shared
  import opened SessionProtocol
  import O = Objects

  // ----- the operations of an event, in the order the code performs them

  function Drops(calls: seq<CallId>): seq<O.Op> {
    if calls == [] then [] else [O.Drop(calls[0])] + Drops(calls[1..])
  }

  function Shares(calls: seq<CallId>): seq<O.Op> {
    if calls == [] then [] else [O.Share(calls[0])] + Shares(calls[1..])
  }

  /** sess_destroyed lets go of the queues and the ring of every slot. */
  function GiveUpOps(slots: seq<Slot>): seq<O.Op> {
    if slots == [] then []
    else Drops(slots[0].sendq) + Drops(slots[0].recvq) + Drops(slots[0].pending) + GiveUpOps(slots[1..])
  }

  function CreateOps(s: Sess, i: nat, ok: bool): seq<O.Op>
    requires i < |s.slots|
  {
    if ok then [] else GiveUpOps(s.slots[i := s.slots[i].(sendq := [], recvq := [], conn := None)])
  }

  /** The send queue takes a reference to every call that has not been sent. */
  function SendOps(slot: Slot): seq<O.Op> {
    if slot.numSent < |slot.pending| then Shares(slot.pending[slot.numSent..]) else []
  }

  function SendCallsOps(s: Sess, i: nat, ok: bool): seq<O.Op>
    requires i < |s.slots|
  {
    if s.slots[i].conn.None? then CreateOps(s, i, ok)
    else if !s.slots[i].isConnected then []
    else SendOps(s.slots[i])
  }

  /** The ring takes a reference; then what can be sent is sent. */
  function IssueOps(cfg: Config, s: Sess, c: CallId, ok: bool): seq<O.Op> {
    var i := FirstRoom(s.slots, cfg.maxPiped);
    if i == |s.slots| then []
    else [O.Share(c)] + SendCallsOps(SetSlot(s, i, Enqueued(s.slots[i], c)), i, ok)
  }

  function StatusOps(cfg: Config, s: Sess, c: CallId, status: nat, ok: bool): seq<O.Op> {
    if cfg.failureStatus == 0 || status != cfg.failureStatus then []
    else if cfg.retryOnFailure then IssueOps(cfg, s, c, ok)
    else GiveUpOps(s.slots)
  }

  /** The session after call_done has taken the call from its ring. */
  function Taken(s: Sess, i: nat): Sess
    requires i < |s.slots| && s.slots[i].recvq != []
  {
    TakeDone(SetSlot(s, i, s.slots[i].(recvq := s.slots[i].recvq[1..])), s.slots[i].recvq[0])
  }

  /** A reply may be retried or fail the session; then the ring and the receive queue let
      go of the call. */
  function DoneOps(cfg: Config, s: Sess, i: nat, status: nat, ok: bool): seq<O.Op>
    requires i < |s.slots| && s.slots[i].recvq != []
  {
    var c := s.slots[i].recvq[0];
    StatusOps(cfg, Taken(s, i), c, status, ok) + [O.Drop(c), O.Drop(c)]
  }

  /** The queues of the old connection let go behind the session's handler. */
  function FailedOps(cfg: Config, s: Sess, i: nat, ok: bool): seq<O.Op>
    requires i < |s.slots|
  {
    var slot := s.slots[i];
    if slot.isSuccessful || cfg.retryOnFailure then CreateOps(s, i, ok) + Drops(slot.sendq) + Drops(slot.recvq)
    else GiveUpOps(s.slots)
  }

  function OpsOf(cfg: Config, s: Sess, e: Event): seq<O.Op>
    requires Enabled(s, e)
  {
    match e
    case NewCall(c) => [O.Make(c)]
    case Issue(c, ok) => IssueOps(cfg, s, c, ok)
    case Release(c) => [O.Drop(c)]
    case Connected(i) => SendOps(s.slots[i])
    case RequestSent(_) => []
    case ReplyDone(i, status, ok) => DoneOps(cfg, s, i, status, ok)
    case ConnFailed(i, ok) => FailedOps(cfg, s, i, ok)
    case ConnTimeout(_) => GiveUpOps(s.slots)
    case End => GiveUpOps(s.slots)
  }

  /** The operations of a whole run. */
  function RunOps(cfg: Config, s: Sess, events: seq<Event>): seq<O.Op>
    requires CanRun(cfg, s, events)
    decreases |events|
  {
    if events == [] then [] else OpsOf(cfg, s, events[0]) + RunOps(cfg, Next(cfg, s, events[0]), events[1..])
  }

  // ----- what they make of the reference counts

  /** These are legal, and leave the reference counts at r; or a count has run out. */
  ghost predicate Told(ops: seq<O.Op>, r: Refs, created: set<CallId>) {
    r.underflow || (O.Legal(ops) && O.Counts(ops) == r && forall c :: O.Make(c) in ops ==> c in created)
  }

  lemma LegalMore(ops: seq<O.Op>, op: O.Op)
    requires O.Legal(ops) && if op.Make? then op !in ops else op.call in O.Counts(ops).count
    ensures O.Legal(ops + [op])
  {
    var more := ops + [op];
    assert more[..|ops|] == ops;
    forall k | 0 <= k < |more| ensures O.LegalAt(more, k) {
      if k < |ops| {
        assert more[..k] == ops[..k] && O.LegalAt(ops, k);
      }
    }
  }

  lemma ToldMake(ops: seq<O.Op>, r: Refs, created: set<CallId>, c: CallId)
    requires Told(ops, r, created) && c !in created
    ensures Told(ops + [O.Make(c)], r.Inc(c), created + {c})
  {
    if !r.underflow {
      LegalMore(ops, O.Make(c));
      O.CountsMore(ops, O.Make(c));
    }
  }

  lemma ToldInc(ops: seq<O.Op>, r: Refs, created: set<CallId>, c: CallId)
    requires Told(ops, r, created) && c in r.count
    ensures Told(ops + [O.Share(c)], r.Inc(c), created)
  {
    if !r.underflow {
      LegalMore(ops, O.Share(c));
      O.CountsMore(ops, O.Share(c));
    }
  }

  lemma ToldDec(ops: seq<O.Op>, r: Refs, created: set<CallId>, c: CallId)
    requires Told(ops, r, created)
    ensures Told(ops + [O.Drop(c)], r.Dec(c), created)
  {
    if !r.underflow && c in r.count {
      LegalMore(ops, O.Drop(c));
      O.CountsMore(ops, O.Drop(c));
    }
  }

  lemma Joined<T>(a: seq<T>, b: seq<T>, c: seq<T>)
    ensures a + (b + c) == a + b + c
  {
  }

  lemma NothingMore<T>(a: seq<T>)
    ensures a + [] == a
  {
  }

  lemma {:induction false} ToldDecAll(ops: seq<O.Op>, r: Refs, created: set<CallId>, calls: seq<CallId>)
    requires Told(ops, r, created)
    ensures Told(ops + Drops(calls), r.DecAll(calls), created)
    decreases |calls|
  {
    if calls == [] {
      NothingMore(ops);
    } else {
      ToldDec(ops, r, created, calls[0]);
      ToldDecAll(ops + [O.Drop(calls[0])], r.Dec(calls[0]), created, calls[1..]);
      Joined(ops, [O.Drop(calls[0])], Drops(calls[1..]));
    }
  }

  lemma ToldQueues(ops: seq<O.Op>, r: Refs, created: set<CallId>, a: seq<CallId>, b: seq<CallId>)
    requires Told(ops, r, created)
    ensures Told(ops + Drops(a) + Drops(b), r.DecAll(a).DecAll(b), created)
  {
    ToldDecAll(ops, r, created, a);
    ToldDecAll(ops + Drops(a), r.DecAll(a), created, b);
  }

  lemma JoinedFour<T>(ops: seq<T>, a: seq<T>, b: seq<T>, c: seq<T>, d: seq<T>)
    ensures ops + (a + b + c + d) == ops + a + b + c + d
  {
  }

  lemma {:induction false} ToldGiveUp(ops: seq<O.Op>, r: Refs, created: set<CallId>, slots: seq<Slot>)
    requires Told(ops, r, created)
    ensures Told(ops + GiveUpOps(slots), GiveUp(r, slots), created)
    decreases |slots|
  {
    if slots == [] {
      NothingMore(ops);
    } else {
      var slot := slots[0];
      var queues := r.DecAll(slot.sendq).DecAll(slot.recvq);
      var sofar := ops + Drops(slot.sendq) + Drops(slot.recvq);
      ToldQueues(ops, r, created, slot.sendq, slot.recvq);
      ToldDecAll(sofar, queues, created, slot.pending);
      ToldGiveUp(sofar + Drops(slot.pending), queues.DecAll(slot.pending), created, slots[1..]);
      JoinedFour(ops, Drops(slot.sendq), Drops(slot.recvq), Drops(slot.pending), GiveUpOps(slots[1..]));
    }
  }

  /** The calls pending on a slot are referenced. */
  ghost predicate Counted(s: Sess, i: nat)
    requires i < |s.slots|
  {
    forall c :: c in s.slots[i].pending ==> c in s.refs.count
  }

  lemma SendOpsCons(slot: Slot, next: Slot)
    requires slot.numSent < |slot.pending| && next.pending == slot.pending && next.numSent == slot.numSent + 1
    ensures SendOps(slot) == [O.Share(slot.pending[slot.numSent])] + SendOps(next)
  {
    var rest := slot.pending[slot.numSent..];
    assert rest[0] == slot.pending[slot.numSent] && rest[1..] == slot.pending[slot.numSent + 1..];
    assert Shares(rest) == [O.Share(rest[0])] + Shares(rest[1..]);
    assert next.numSent == |next.pending| ==> rest[1..] == [] && Shares([]) == [];
  }

  lemma {:induction false} ToldSendAll(ops: seq<O.Op>, s: Sess, i: nat)
    requires i < |s.slots| && s.slots[i].conn.Some? && Counted(s, i) && Told(ops, s.refs, s.created)
    ensures Told(ops + SendOps(s.slots[i]), SendAll(s, i).refs, s.created) && SendAll(s, i).created == s.created
    decreases |s.slots[i].pending| - s.slots[i].numSent
  {
    var slot := s.slots[i];
    if slot.numSent < |slot.pending| {
      var c := slot.pending[slot.numSent];
      ToldInc(ops, s.refs, s.created, c);
      ToldSendAll(ops + [O.Share(c)], CoreSend(s, i), i);
      SendOpsCons(slot, CoreSend(s, i).slots[i]);
      Joined(ops, [O.Share(c)], SendOps(CoreSend(s, i).slots[i]));
    } else {
      NothingMore(ops);
    }
  }

  lemma ToldCreateConn(ops: seq<O.Op>, s: Sess, i: nat, ok: bool)
    requires i < |s.slots| && Told(ops, s.refs, s.created)
    ensures Told(ops + CreateOps(s, i, ok), CreateConn(s, i, ok).refs, s.created)
    ensures CreateConn(s, i, ok).created == s.created
  {
    if ok {
      NothingMore(ops);
    } else {
      ToldGiveUp(ops, s.refs, s.created, s.slots[i := s.slots[i].(sendq := [], recvq := [], conn := None)]);
    }
  }

  lemma ToldSendCalls(ops: seq<O.Op>, s: Sess, i: nat, ok: bool)
    requires i < |s.slots| && Counted(s, i) && Told(ops, s.refs, s.created)
    ensures Told(ops + SendCallsOps(s, i, ok), SendCalls(s, i, ok).refs, s.created)
    ensures SendCalls(s, i, ok).created == s.created
  {
    if s.slots[i].conn.None? {
      ToldCreateConn(ops, s, i, ok);
    } else if s.slots[i].isConnected {
      ToldSendAll(ops, s, i);
    } else {
      NothingMore(ops);
    }
  }

  lemma ToldIssue(ops: seq<O.Op>, cfg: Config, s: Sess, c: CallId, ok: bool)
    requires (forall i: nat :: i < |s.slots| ==> Counted(s, i)) && c in s.refs.count && Told(ops, s.refs, s.created)
    ensures Told(ops + IssueOps(cfg, s, c, ok), IssueCall(cfg, s, c, ok).refs, s.created)
    ensures IssueCall(cfg, s, c, ok).created == s.created
  {
    var i := FirstRoom(s.slots, cfg.maxPiped);
    if i < |s.slots| {
      assert Counted(s, i);
      ToldInc(ops, s.refs, s.created, c);
      var t := SetSlot(s, i, Enqueued(s.slots[i], c));
      ToldSendCalls(ops + [O.Share(c)], t.(refs := s.refs.Inc(c)), i, ok);
      Joined(ops, [O.Share(c)], SendCallsOps(t, i, ok));
    } else {
      NothingMore(ops);
    }
  }

  lemma SlotsCounted(cfg: Config, s: Sess)
    requires Sound(cfg, s)
    ensures forall i: nat :: i < |s.slots| ==> Counted(s, i)
  {
    forall i: nat, c | i < |s.slots| && c in s.slots[i].pending ensures c in s.refs.count {
      PendingAreAlive(cfg, s, i, c);
    }
  }

  lemma ToldStatus(ops: seq<O.Op>, cfg: Config, s: Sess, c: CallId, status: nat, ok: bool)
    requires (forall i: nat :: i < |s.slots| ==> Counted(s, i)) && c in s.refs.count && Told(ops, s.refs, s.created)
    ensures Told(ops + StatusOps(cfg, s, c, status, ok), AfterStatus(cfg, s, c, status, ok).refs, s.created)
    ensures AfterStatus(cfg, s, c, status, ok).created == s.created
  {
    if cfg.failureStatus == 0 || status != cfg.failureStatus {
      NothingMore(ops);
    } else if cfg.retryOnFailure {
      ToldIssue(ops, cfg, s, c, ok);
    } else {
      ToldGiveUp(ops, s.refs, s.created, s.slots);
    }
  }

  lemma TakenCounted(s: Sess, i: nat)
    requires i < |s.slots| && s.slots[i].recvq != [] && forall k: nat :: k < |s.slots| ==> Counted(s, k)
    ensures var t := Taken(s, i);
            && t.refs == s.refs && t.created == s.created && |t.slots| == |s.slots|
            && forall k: nat :: k < |t.slots| ==> Counted(t, k)
  {
    var t := Taken(s, i);
    forall k: nat, c | k < |t.slots| && c in t.slots[k].pending ensures c in s.slots[k].pending {
    }
    forall k: nat | k < |t.slots| ensures Counted(t, k) {
      assert Counted(s, k);
    }
  }

  /** What becomes of the references when a reply is done. */
  lemma DoneRefs(cfg: Config, s: Sess, i: nat, status: nat, ok: bool)
    requires s.fate.Running? && i < |s.slots| && s.slots[i].recvq != []
    requires !Done(cfg, s, i, status, ok).fate.AssertionFailed?
    ensures var c := s.slots[i].recvq[0];
            var u := AfterStatus(cfg, Taken(s, i), c, status, ok);
            Done(cfg, s, i, status, ok).refs == u.refs.Dec(c).Dec(c) && Done(cfg, s, i, status, ok).created == u.created
  {
  }

  lemma ToldDone(ops: seq<O.Op>, cfg: Config, s: Sess, i: nat, status: nat, ok: bool)
    requires Sound(cfg, s) && s.fate.Running? && i < |s.slots| && s.slots[i].recvq != [] && Told(ops, s.refs, s.created)
    requires !Done(cfg, s, i, status, ok).fate.AssertionFailed?
    ensures Told(ops + DoneOps(cfg, s, i, status, ok), Done(cfg, s, i, status, ok).refs, s.created)
    ensures Done(cfg, s, i, status, ok).created == s.created
  {
    var c := s.slots[i].recvq[0];
    PendingAreAlive(cfg, s, i, c);
    SlotsCounted(cfg, s);
    TakenCounted(s, i);
    DoneRefs(cfg, s, i, status, ok);
    var u := AfterStatus(cfg, Taken(s, i), c, status, ok);
    var first := StatusOps(cfg, Taken(s, i), c, status, ok);
    ToldStatus(ops, cfg, Taken(s, i), c, status, ok);
    ToldTwoDrops(ops + first, u.refs, s.created, c);
    Joined(ops, first, [O.Drop(c), O.Drop(c)]);
  }

  lemma ToldTwoDrops(ops: seq<O.Op>, r: Refs, created: set<CallId>, c: CallId)
    requires Told(ops, r, created)
    ensures Told(ops + [O.Drop(c), O.Drop(c)], r.Dec(c).Dec(c), created)
  {
    ToldDec(ops, r, created, c);
    ToldDec(ops + [O.Drop(c)], r.Dec(c), created, c);
    assert ops + [O.Drop(c)] + [O.Drop(c)] == ops + [O.Drop(c), O.Drop(c)];
  }

  lemma ToldFailed(ops: seq<O.Op>, cfg: Config, s: Sess, i: nat, ok: bool)
    requires i < |s.slots| && Told(ops, s.refs, s.created)
    ensures Told(ops + FailedOps(cfg, s, i, ok), Failed(cfg, s, i, ok).refs, s.created)
    ensures Failed(cfg, s, i, ok).created == s.created
  {
    var slot := s.slots[i];
    if slot.isSuccessful || cfg.retryOnFailure {
      var first := CreateOps(s, i, ok);
      ToldCreateConn(ops, s, i, ok);
      ToldQueues(ops + first, CreateConn(s, i, ok).refs, s.created, slot.sendq, slot.recvq);
      Joined(ops, first, Drops(slot.sendq));
      Joined(ops, first + Drops(slot.sendq), Drops(slot.recvq));
    } else {
      ToldGiveUp(ops, s.refs, s.created, s.slots);
    }
  }

  lemma HeldIsCounted(cfg: Config, s: Sess, c: CallId)
    requires Sound(cfg, s) && c in s.holds
    ensures c in s.refs.count
  {
  }

  lemma ToldConnected(ops: seq<O.Op>, s: Sess, i: nat)
    requires i < |s.slots| && s.slots[i].conn.Some? && Counted(s, i) && Told(ops, s.refs, s.created)
    ensures var t := SendAll(SetSlot(s, i, s.slots[i].(isConnected := true)), i);
            Told(ops + SendOps(s.slots[i]), t.refs, s.created) && t.created == s.created
  {
    ToldSendAll(ops, SetSlot(s, i, s.slots[i].(isConnected := true)), i);
  }

  /** Behind legal operations those of an event are legal, and make of the reference
      counts what the event makes of them. */
  lemma ToldNext(ops: seq<O.Op>, cfg: Config, s: Sess, e: Event)
    requires Sound(cfg, s) && Enabled(s, e) && Told(ops, s.refs, s.created)
    ensures Told(ops + OpsOf(cfg, s, e), Next(cfg, s, e).refs, Next(cfg, s, e).created)
  {
    SlotsCounted(cfg, s);
    NextSound(cfg, s, e);
    match e {
      case NewCall(c) => ToldMake(ops, s.refs, s.created, c);
      case Issue(c, ok) =>
        HeldIsCounted(cfg, s, c);
        ToldIssue(ops, cfg, s, c, ok);
      case Release(c) => ToldDec(ops, s.refs, s.created, c);
      case Connected(i) =>
        assert Counted(s, i);
        ToldConnected(ops, s, i);
      case RequestSent(i) => NothingMore(ops);
      case ReplyDone(i, status, ok) => ToldDone(ops, cfg, s, i, status, ok);
      case ConnFailed(i, ok) => ToldFailed(ops, cfg, s, i, ok);
      case ConnTimeout(_) => ToldGiveUp(ops, s.refs, s.created, s.slots);
      case End => ToldGiveUp(ops, s.refs, s.created, s.slots);
    }
  }

  lemma {:induction false} ToldRun(ops: seq<O.Op>, cfg: Config, s: Sess, events: seq<Event>)
    requires Sound(cfg, s) && GoneEmpty(s) && CanRun(cfg, s, events) && Told(ops, s.refs, s.created)
    ensures Told(ops + RunOps(cfg, s, events), Run(cfg, s, events).refs, Run(cfg, s, events).created)
    decreases |events|
  {
    if events == [] {
      NothingMore(ops);
    } else {
      var first, t := OpsOf(cfg, s, events[0]), Next(cfg, s, events[0]);
      NextSound(cfg, s, events[0]);
      NextKeeps(cfg, s, events[0]);
      ToldNext(ops, cfg, s, events[0]);
      ToldRun(ops + first, cfg, t, events[1..]);
      Joined(ops, first, RunOps(cfg, t, events[1..]));
    }
  }

  lemma {:induction false} RunSplit(cfg: Config, s: Sess, events: seq<Event>, k: nat)
    requires CanRun(cfg, s, events) && k <= |events|
    ensures CanRun(cfg, s, events[..k]) && CanRun(cfg, Run(cfg, s, events[..k]), events[k..])
    ensures RunOps(cfg, s, events)
            == RunOps(cfg, s, events[..k]) + RunOps(cfg, Run(cfg, s, events[..k]), events[k..])
    decreases k
  {
    if k == 0 {
      assert events[..0] == [] && events[0..] == events;
    } else {
      var t := Next(cfg, s, events[0]);
      RunSplit(cfg, t, events[1..], k - 1);
      assert events[..k][0] == events[0] && events[..k][1..] == events[1..][..k - 1] && events[1..][k - 1..] == events[k..];
      Joined(OpsOf(cfg, s, events[0]), RunOps(cfg, t, events[1..][..k - 1]),
             RunOps(cfg, Run(cfg, t, events[1..][..k - 1]), events[k..]));
    }
  }

  /** The references a run takes and drops are legal operations on objects: no call is made
      twice, and none is shared or dropped once it is destroyed.  Those of the first k
      events come first, and leave the counts of the session there. */
  lemma RunIsLegal(cfg: Config, events: seq<Event>, k: nat)
    requires cfg.Valid() && CanRun(cfg, Fresh(cfg), events) && k <= |events|
    ensures O.Legal(RunOps(cfg, Fresh(cfg), events)) && CanRun(cfg, Fresh(cfg), events[..k])
    ensures RunOps(cfg, Fresh(cfg), events[..k]) <= RunOps(cfg, Fresh(cfg), events)
    ensures O.Counts(RunOps(cfg, Fresh(cfg), events[..k])) == Run(cfg, Fresh(cfg), events[..k]).refs
  {
    RunSplit(cfg, Fresh(cfg), events, k);
    CountsOfRun(cfg, events);
    CountsOfRun(cfg, events[..k]);
  }

  lemma CountsOfRun(cfg: Config, events: seq<Event>)
    requires cfg.Valid() && CanRun(cfg, Fresh(cfg), events)
    ensures O.Legal(RunOps(cfg, Fresh(cfg), events))
    ensures O.Counts(RunOps(cfg, Fresh(cfg), events)) == Run(cfg, Fresh(cfg), events).refs
  {
    FreshSound(cfg);
    RunSound(cfg, Fresh(cfg), events);
    ToldFresh(cfg);
    ToldRun([], cfg, Fresh(cfg), events);
    NothingBefore(RunOps(cfg, Fresh(cfg), events));
  }

  lemma ToldFresh(cfg: Config)
    ensures Told([], Fresh(cfg).refs, Fresh(cfg).created)
  {
  }

  lemma NothingBefore<T>(a: seq<T>)
    ensures [] + a == a
  {
  }

  /** Every pending call has an object to itself, with its count. */
  ghost predicate Housed(s: Sess, refCount: seq<nat>, home: map<CallId, nat>) {
    && (forall c :: Pending(s, c) ==> c in home && home[c] < |refCount| && refCount[home[c]] == s.refs.count[c] > 0)
    && forall c, d :: Pending(s, c) && Pending(s, d) && c != d ==> home[c] != home[d]
  }

  lemma PendingHoused(cfg: Config, s: Sess, refCount: seq<nat>, free: seq<nat>, home: map<CallId, nat>)
    requires Sound(cfg, s) && O.Placed(refCount, free, s.refs, home)
    ensures Housed(s, refCount, home)
  {
    forall c | Pending(s, c) ensures c in s.refs.count {
      var i :| 0 <= i < |s.slots| && c in s.slots[i].pending;
      PendingAreAlive(cfg, s, i, c);
    }
  }

  lemma NothingAlive(cfg: Config, s: Sess)
    requires Sound(cfg, s) && GoneEmpty(s) && s.gone && s.holds == multiset{}
    ensures |O.Referenced(s.refs.count)| == 0
  {
    NothingHeld(s.slots);
    assert s.refs.count == multiset{};
  }

  /** The object store does what a run does with references.  Every pending call has an
      object to itself, with its count; there are as many objects as the run ever has
      referenced at a time; and when the session is gone and the creators have let go
      all of them are free again. */
  method KeepCalls(cfg: Config, events: seq<Event>) returns (store: O.Store, home: map<CallId, nat>)
    requires cfg.Valid() && CanRun(cfg, Fresh(cfg), events)
    ensures fresh(store) && O.Keeps(store, RunOps(cfg, Fresh(cfg), events), home)
    ensures Housed(Run(cfg, Fresh(cfg), events), store.refCount, home)
    ensures |store.refCount| == O.Peak(RunOps(cfg, Fresh(cfg), events))
    ensures var s := Run(cfg, Fresh(cfg), events);
            s.gone && s.holds == multiset{} ==> |store.free| == |store.refCount|
  {
    CountsOfRun(cfg, events);
    store, home := O.Keep(RunOps(cfg, Fresh(cfg), events));
    ghost var s := Run(cfg, Fresh(cfg), events);
    FreshSound(cfg);
    RunSound(cfg, Fresh(cfg), events);
    PendingHoused(cfg, s, store.refCount, store.free, home);
    if s.gone && s.holds == multiset{} {
      NothingAlive(cfg, s);
    }
  }
}
