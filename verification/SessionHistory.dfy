/** What the events of a run have issued and completed on each slot, told from the events
    alone. */
module SessionHistory {
  import opened Shared
  import opened SessionProtocol

  /** The call that an event puts on the ring of slot i, if it does: one that is issued, or
      one that is answered with the failure status and tried again. */
  function IssuedBy(cfg: Config, s: Sess, e: Event, i: nat): seq<CallId> {
    match e
    case Issue(c, _) => if FirstRoom(s.slots, cfg.maxPiped) == i then [c] else []
    case ReplyDone(j, status, _) =>
      if Answered(s, j) && Retried(cfg, status)
         && FirstRoom(s.slots[j := AfterDone(s.slots[j])], cfg.maxPiped) == i
      then [s.slots[j].recvq[0]] else []
    case _ => []
  }

  predicate Answered(s: Sess, j: nat) {
    j < |s.slots| && s.slots[j].recvq != [] && s.slots[j].pending != [] && s.slots[j].numSent > 0
  }

  /** The call whose reply an event completes on slot i, if it does. */
  function CompletedBy(s: Sess, e: Event, i: nat): seq<CallId> {
    if e.ReplyDone? && e.slot == i && Answered(s, i) then [s.slots[i].recvq[0]] else []
  }

  ghost function IssuedOn(cfg: Config, s: Sess, events: seq<Event>, i: nat): seq<CallId>
    requires CanRun(cfg, s, events)
    decreases |events|
  {
    if events == [] then []
    else IssuedBy(cfg, s, events[0], i) + IssuedOn(cfg, Next(cfg, s, events[0]), events[1..], i)
  }

  ghost function CompletedOn(cfg: Config, s: Sess, events: seq<Event>, i: nat): seq<CallId>
    requires CanRun(cfg, s, events)
    decreases |events|
  {
    if events == [] then []
    else CompletedBy(s, events[0], i) + CompletedOn(cfg, Next(cfg, s, events[0]), events[1..], i)
  }

  /** t has these calls more on its record of slot i than s. */
  ghost predicate Adds(s: Sess, t: Sess, i: nat, issued: seq<CallId>, completed: seq<CallId>) {
    && i < |s.slots| == |t.slots|
    && t.slots[i].issued == s.slots[i].issued + issued && t.slots[i].completed == s.slots[i].completed + completed
  }

  lemma SendCallsAddsNothing(s: Sess, k: nat, ok: bool, i: nat)
    requires k < |s.slots| && i < |s.slots| && !s.gone && !SendCalls(s, k, ok).gone
    ensures Adds(s, SendCalls(s, k, ok), i, [], [])
  {
    if s.slots[k].conn.Some? && s.slots[k].isConnected {
      SendAllKeeps(s, k);
    }
  }

  lemma IssueAdds(cfg: Config, s: Sess, c: CallId, ok: bool, i: nat)
    requires i < |s.slots| && !s.gone && !IssueCall(cfg, s, c, ok).gone
    ensures Adds(s, IssueCall(cfg, s, c, ok), i, if FirstRoom(s.slots, cfg.maxPiped) == i then [c] else [], [])
  {
    var k := FirstRoom(s.slots, cfg.maxPiped);
    if k < |s.slots| {
      var t := SetSlot(s, k, Enqueued(s.slots[k], c)).(refs := s.refs.Inc(c));
      SendCallsAddsNothing(t, k, ok, i);
      assert t.slots[i].issued == s.slots[i].issued + if k == i then [c] else [];
    }
  }

  predicate Retried(cfg: Config, status: nat) {
    cfg.failureStatus != 0 && status == cfg.failureStatus && cfg.retryOnFailure
  }

  lemma StatusAdds(cfg: Config, t: Sess, c: CallId, status: nat, ok: bool, i: nat)
    requires i < |t.slots| && !t.gone && !AfterStatus(cfg, t, c, status, ok).gone
    ensures Adds(t, AfterStatus(cfg, t, c, status, ok), i,
                 if Retried(cfg, status) && FirstRoom(t.slots, cfg.maxPiped) == i then [c] else [], [])
  {
    if Retried(cfg, status) {
      IssueAdds(cfg, t, c, ok, i);
    }
  }

  lemma AfterDoneAdds(s: Sess, j: nat, t: Sess, i: nat)
    requires i < |s.slots| && Answered(s, j) && t == SetSlot(s, j, AfterDone(s.slots[j]))
    ensures Adds(s, t, i, [], if i == j then [s.slots[j].recvq[0]] else [])
  {
  }

  lemma AddsBoth(s: Sess, t: Sess, u: Sess, i: nat, issued: seq<CallId>, completed: seq<CallId>)
    requires Adds(s, t, i, [], completed) && Adds(t, u, i, issued, [])
    ensures Adds(s, u, i, issued, completed)
  {
  }

  lemma DoneAdds(cfg: Config, s: Sess, j: nat, status: nat, ok: bool, i: nat)
    requires Sound(cfg, s) && !s.gone && i < |s.slots| && j < |s.slots| && s.slots[j].recvq != []
    requires !Done(cfg, s, j, status, ok).gone
    ensures Answered(s, j)
    ensures Adds(s, Done(cfg, s, j, status, ok), i,
                 if Retried(cfg, status) && FirstRoom(s.slots[j := AfterDone(s.slots[j])], cfg.maxPiped) == i
                 then [s.slots[j].recvq[0]] else [],
                 if i == j then [s.slots[j].recvq[0]] else [])
  {
    DoneIs(cfg, s, j, status, ok);
    DoneAddsAs(cfg, s, j, status, ok, i);
  }

  lemma DoneAddsAs(cfg: Config, s: Sess, j: nat, status: nat, ok: bool, i: nat)
    requires !s.gone && i < |s.slots| && Answered(s, j)
    requires var c := s.slots[j].recvq[0];
             var t := AfterStatus(cfg, SetSlot(s, j, AfterDone(s.slots[j])), c, status, ok);
             Done(cfg, s, j, status, ok) == t.(refs := t.refs.Dec(c).Dec(c)) && !t.gone
    ensures Adds(s, Done(cfg, s, j, status, ok), i,
                 if Retried(cfg, status) && FirstRoom(s.slots[j := AfterDone(s.slots[j])], cfg.maxPiped) == i
                 then [s.slots[j].recvq[0]] else [],
                 if i == j then [s.slots[j].recvq[0]] else [])
  {
    var c := s.slots[j].recvq[0];
    var t := SetSlot(s, j, AfterDone(s.slots[j]));
    var u := AfterStatus(cfg, t, c, status, ok);
    var again := if Retried(cfg, status) && FirstRoom(t.slots, cfg.maxPiped) == i then [c] else [];
    var completed := if i == j then [c] else [];
    AfterDoneAdds(s, j, t, i);
    StatusAdds(cfg, t, c, status, ok, i);
    AddsBoth(s, t, u, i, again, completed);
  }

  lemma ConnectedAdds(s: Sess, k: nat, i: nat)
    requires i < |s.slots| && k < |s.slots| && s.slots[k].conn.Some?
    ensures Adds(s, SendAll(SetSlot(s, k, s.slots[k].(isConnected := true)), k), i, [], [])
  {
    SendAllKeeps(SetSlot(s, k, s.slots[k].(isConnected := true)), k);
  }

  lemma FailedAdds(cfg: Config, s: Sess, k: nat, ok: bool, i: nat)
    requires i < |s.slots| && k < |s.slots| && !Failed(cfg, s, k, ok).gone
    ensures Adds(s, Failed(cfg, s, k, ok), i, [], [])
  {
  }

  /** Whatever is not about one call adds nothing. */
  lemma OthersAdd(cfg: Config, s: Sess, e: Event, i: nat)
    requires Enabled(s, e) && i < |s.slots| && !Next(cfg, s, e).gone && !e.ReplyDone? && !e.Issue?
    ensures Adds(s, Next(cfg, s, e), i, [], [])
  {
    match e
    case Connected(k) => ConnectedAdds(s, k, i);
    case ConnFailed(k, ok) => FailedAdds(cfg, s, k, ok, i);
    case _ =>
  }

  lemma NextAdds(cfg: Config, s: Sess, e: Event, i: nat)
    requires Sound(cfg, s) && Enabled(s, e) && i < |s.slots| && !s.gone && !Next(cfg, s, e).gone
    ensures Adds(s, Next(cfg, s, e), i, IssuedBy(cfg, s, e, i), CompletedBy(s, e, i))
  {
    if e.ReplyDone? {
      DoneAdds(cfg, s, e.slot, e.status, e.connOk, i);
    } else if e.Issue? {
      IssueAdds(cfg, s, e.call, e.connOk, i);
    } else {
      OthersAdd(cfg, s, e, i);
    }
  }

  /** A session that is gone stays gone. */
  lemma {:induction false} RunStaysGone(cfg: Config, s: Sess, events: seq<Event>)
    requires Sound(cfg, s) && GoneEmpty(s) && CanRun(cfg, s, events) && s.gone
    ensures Run(cfg, s, events).gone
    decreases |events|
  {
    if events != [] {
      NextSound(cfg, s, events[0]);
      NextKeeps(cfg, s, events[0]);
      RunStaysGone(cfg, Next(cfg, s, events[0]), events[1..]);
    }
  }

  /** Over any run that leaves a session alive, the record of each slot grows by the calls
      that its events issued and completed there. */
  lemma {:induction false} RunAdds(cfg: Config, s: Sess, events: seq<Event>, i: nat)
    requires Sound(cfg, s) && GoneEmpty(s) && CanRun(cfg, s, events) && i < |s.slots|
    requires !Run(cfg, s, events).gone
    ensures Adds(s, Run(cfg, s, events), i, IssuedOn(cfg, s, events, i), CompletedOn(cfg, s, events, i))
    decreases |events|
  {
    if events == [] {
    } else {
      var e, rest := events[0], events[1..];
      var t := Next(cfg, s, e);
      NextSound(cfg, s, e);
      NextKeeps(cfg, s, e);
      if s.gone {
        RunStaysGone(cfg, s, events);
      } else if t.gone {
        RunStaysGone(cfg, t, rest);
      } else {
        NextAdds(cfg, s, e, i);
        RunAdds(cfg, t, rest, i);
        AppendTwice(s.slots[i].issued, IssuedBy(cfg, s, e, i), IssuedOn(cfg, t, rest, i));
        AppendTwice(s.slots[i].completed, CompletedBy(s, e, i), CompletedOn(cfg, t, rest, i));
      }
    }
  }

  lemma AppendTwice(a: seq<CallId>, b: seq<CallId>, c: seq<CallId>)
    ensures a + b + c == a + (b + c)
  {
  }

  /** First in, first out, and nothing lost: in a run from a fresh session that is still
      alive, the calls issued on a slot are those completed on it, in order, and then
      those pending, whatever connections failed. */
  lemma CallsAreFifo(cfg: Config, events: seq<Event>, i: nat)
    requires cfg.Valid() && CanRun(cfg, Fresh(cfg), events) && i < cfg.maxConns
    requires !Run(cfg, Fresh(cfg), events).gone
    ensures |Run(cfg, Fresh(cfg), events).slots| == cfg.maxConns
    ensures IssuedOn(cfg, Fresh(cfg), events, i)
         == CompletedOn(cfg, Fresh(cfg), events, i) + Run(cfg, Fresh(cfg), events).slots[i].pending
  {
    FreshSound(cfg);
    RunAdds(cfg, Fresh(cfg), events, i);
    RunIsFifo(cfg, events, i);
    FreshRecord(cfg, i);
    RecordIs(Fresh(cfg), Run(cfg, Fresh(cfg), events), i, IssuedOn(cfg, Fresh(cfg), events, i),
             CompletedOn(cfg, Fresh(cfg), events, i));
  }

  lemma FreshRecord(cfg: Config, i: nat)
    requires i < cfg.maxConns
    ensures i < |Fresh(cfg).slots| && Fresh(cfg).slots[i].issued == [] && Fresh(cfg).slots[i].completed == []
  {
  }

  lemma RecordIs(s: Sess, t: Sess, i: nat, issued: seq<CallId>, completed: seq<CallId>)
    requires Adds(s, t, i, issued, completed) && s.slots[i].issued == [] && s.slots[i].completed == []
    ensures t.slots[i].issued == issued && t.slots[i].completed == completed
  {
  }
}
