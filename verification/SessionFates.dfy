/** What becomes of a session, told from its events: how far each connection has got, when a
    session ends, and where a call goes that is issued or tried again. */
module SessionFates {
  import opened Shared
  import opened SessionProtocol
  import SessionHistory

  /** Of the current connection of a slot: whether it has been connected, how many requests
      are out without their reply, and whether any call has been answered on it. */
  datatype Course = Course(connected: bool, unanswered: int, answered: bool)

  const NO_COURSE := Course(false, 0, false)

  function After(c: Course, e: Event, i: nat): Course {
    match e
    case Connected(j) => if j == i then c.(connected := true) else c
    case RequestSent(j) => if j == i then c.(unanswered := c.unanswered + 1) else c
    case ReplyDone(j, _, _) => if j == i then c.(unanswered := c.unanswered - 1, answered := true) else c
    case ConnFailed(j, _) => if j == i then NO_COURSE else c
    case _ => c
  }

  function CourseOf(c: Course, events: seq<Event>, i: nat): Course
    decreases |events|
  {
    if events == [] then c else CourseOf(After(c, events[0], i), events[1..], i)
  }

  predicate Follows(slot: Slot, c: Course) {
    slot.isConnected == c.connected && |slot.recvq| == c.unanswered && slot.isSuccessful == c.answered
  }

  /** Slots are used from the first on, and one that has not been used has no success. */
  ghost predicate UsedInOrder(s: Sess) {
    && (forall k, m :: 0 <= k < m < |s.slots| && s.slots[k].conn.None? ==> s.slots[m].conn.None?)
    && (forall k :: 0 <= k < |s.slots| && s.slots[k].conn.None? ==> !s.slots[k].isSuccessful)
  }

  predicate FirstWithRoom(slots: seq<Slot>, k: nat, maxPiped: nat) {
    k < |slots| && |slots[k].pending| < maxPiped && forall j :: 0 <= j < k ==> |slots[j].pending| >= maxPiped
  }

  predicate AllFull(slots: seq<Slot>, maxPiped: nat) {
    forall j :: 0 <= j < |slots| ==> |slots[j].pending| >= maxPiped
  }

  /** t is s with one more call pending on slot k, which has a connection. */
  ghost predicate OneMorePends(s: Sess, t: Sess, k: nat, c: CallId) {
    && k < |s.slots| == |t.slots| && !t.gone && t.fate == s.fate
    && (forall m :: 0 <= m < |s.slots| && m != k ==> t.slots[m] == s.slots[m])
    && t.slots[k].pending == s.slots[k].pending + [c] && t.slots[k].conn.Some?
    && t.slots[k].recvq == s.slots[k].recvq && t.slots[k].isConnected == s.slots[k].isConnected
    && t.slots[k].isSuccessful == s.slots[k].isSuccessful
  }

  /** What issuing comes to: an end of the program where no slot has room, an end of the
      session where a connection is needed and not to be had, and otherwise one more call
      pending on the first slot with room. */
  lemma IssueIs(cfg: Config, s: Sess, c: CallId, ok: bool)
    requires SoundSlots(cfg, s) && !s.gone && UsedInOrder(s)
    ensures var k, t := FirstRoom(s.slots, cfg.maxPiped), IssueCall(cfg, s, c, ok);
            && (k == |s.slots| ==> AllFull(s.slots, cfg.maxPiped) && t == s.(fate := ExitedTooManyCalls))
            && (k < |s.slots| ==> FirstWithRoom(s.slots, k, cfg.maxPiped))
            && (k < |s.slots| && s.slots[k].conn.None? && !ok ==> t.gone && t.fate == s.fate)
            && (k < |s.slots| && (s.slots[k].conn.Some? || ok) ==> OneMorePends(s, t, k, c))
  {
    var k := FirstRoom(s.slots, cfg.maxPiped);
    if k < |s.slots| {
      var u := SetSlot(s, k, Enqueued(s.slots[k], c)).(refs := s.refs.Inc(c));
      if s.slots[k].conn.None? {
        UnusedSlot(cfg, s.slots[k]);
      } else if s.slots[k].isConnected {
        SendAllKeeps(u, k);
      }
    }
  }

  ghost predicate SoundSlots(cfg: Config, s: Sess) {
    cfg.Valid() && forall k :: 0 <= k < |s.slots| ==> SlotSound(cfg, s.slots[k])
  }

  lemma UnusedSlot(cfg: Config, slot: Slot)
    requires SlotSound(cfg, slot) && slot.conn.None?
    ensures slot.pending == [] && slot.recvq == [] && slot.sendq == [] && !slot.isConnected
  {
    assert slot.recvq + slot.sendq == [];
  }

  lemma IssueFollows(cfg: Config, s: Sess, c: CallId, ok: bool, i: nat, course: Course)
    requires SoundSlots(cfg, s) && !s.gone && UsedInOrder(s) && i < |s.slots| && Follows(s.slots[i], course)
    requires !IssueCall(cfg, s, c, ok).gone
    ensures Stays(s, IssueCall(cfg, s, c, ok), i, course)
  {
    var k := FirstRoom(s.slots, cfg.maxPiped);
    IssueIs(cfg, s, c, ok);
    if k < |s.slots| {
      OneMoreFollows(cfg, s, IssueCall(cfg, s, c, ok), k, c, i, course);
    }
  }

  /** Slots in front of the first one with room are full, so they have connections. */
  lemma FullAreUsed(cfg: Config, s: Sess, k: nat)
    requires SoundSlots(cfg, s) && FirstWithRoom(s.slots, k, cfg.maxPiped)
    ensures forall j :: 0 <= j < k ==> s.slots[j].conn.Some?
  {
  }

  lemma TakenSlot(cfg: Config, s: Sess, i: nat)
    requires cfg.Valid() && Sound(cfg, s) && i < |s.slots| && s.slots[i].recvq != []
    ensures s.slots[i].pending != [] && s.slots[i].numSent > 0
    ensures s.slots[i].conn.Some? && s.slots[i].pending[0] == s.slots[i].recvq[0]
    ensures |s.slots[i].pending| <= cfg.maxPiped
  {
    DoneHeadsRing(cfg, s, i);
    assert SlotSound(cfg, s.slots[i]);
  }

  lemma AfterDoneIs(slot: Slot)
    requires slot.recvq != [] && slot.pending != [] && slot.numSent > 0
    ensures var slot' := AfterDone(slot);
            && slot'.pending == slot.pending[1..] && slot'.recvq == slot.recvq[1..] && slot'.isSuccessful
            && slot'.conn == slot.conn && slot'.isConnected == slot.isConnected
  {
  }

  lemma TakenSlots(cfg: Config, s: Sess, i: nat)
    requires cfg.Valid() && Sound(cfg, s) && i < |s.slots| && s.slots[i].recvq != []
    ensures s.slots[i].pending != [] && s.slots[i].numSent > 0
    ensures SoundSlots(cfg, SetSlot(s, i, AfterDone(s.slots[i])))
  {
    DoneTakenSound(cfg, s, i);
  }

  /** An answered call leaves a sound session, with room on its slot. */
  lemma TakenIs(cfg: Config, s: Sess, i: nat)
    requires cfg.Valid() && Sound(cfg, s) && UsedInOrder(s) && i < |s.slots| && s.slots[i].recvq != []
    ensures s.slots[i].pending != [] && s.slots[i].numSent > 0
    ensures s.slots[i].conn.Some? && s.slots[i].pending[0] == s.slots[i].recvq[0]
    ensures var t := SetSlot(s, i, AfterDone(s.slots[i]));
            && SoundSlots(cfg, t) && UsedInOrder(t)
            && t.slots[i].pending == s.slots[i].pending[1..] && |t.slots[i].pending| < cfg.maxPiped
            && t.slots[i].recvq == s.slots[i].recvq[1..] && t.slots[i].isSuccessful
            && t.slots[i].conn == s.slots[i].conn && t.slots[i].isConnected == s.slots[i].isConnected
  {
    TakenSlot(cfg, s, i);
    TakenSlots(cfg, s, i);
    AfterDoneIs(s.slots[i]);
    SwapInOrder(s, i, AfterDone(s.slots[i]));
  }

  lemma SwapInOrder(s: Sess, i: nat, slot: Slot)
    requires UsedInOrder(s) && i < |s.slots| && slot.conn == s.slots[i].conn && slot.conn.Some?
    ensures UsedInOrder(SetSlot(s, i, slot))
  {
  }

  lemma RoomNoLater(slots: seq<Slot>, i: nat, maxPiped: nat)
    requires i < |slots| && |slots[i].pending| < maxPiped
    ensures FirstRoom(slots, maxPiped) <= i
  {
  }

  /** A reply: with the failure status and no retry it ends the session; with a retry the
      same call pends again, on the first slot with room, which has its connection; with any
      other status the call just leaves its ring. */
  lemma ReplyDoneIs(cfg: Config, s: Sess, i: nat, status: nat, ok: bool)
    requires cfg.Valid() && Sound(cfg, s) && UsedInOrder(s) && !s.gone
    requires Enabled(s, ReplyDone(i, status, ok))
    ensures s.slots[i].pending != [] && s.slots[i].numSent > 0
    ensures var fails, t := cfg.failureStatus != 0 && status == cfg.failureStatus, Next(cfg, s, ReplyDone(i, status, ok));
            var u := SetSlot(s, i, AfterDone(s.slots[i]));
            && (t.gone <==> fails && !cfg.retryOnFailure)
            && t.fate == s.fate
            && (fails && cfg.retryOnFailure ==>
                  exists k: nat ::
                    k <= i && FirstWithRoom(u.slots, k, cfg.maxPiped) && OneMorePends(u, t, k, s.slots[i].recvq[0]))
            && (!fails ==> t.slots == u.slots)
  {
    var c := s.slots[i].recvq[0];
    TakenIs(cfg, s, i);
    DoneIs(cfg, s, i, status, ok);
    var u := SetSlot(s, i, AfterDone(s.slots[i]));
    if cfg.failureStatus != 0 && status == cfg.failureStatus && cfg.retryOnFailure {
      var k := FirstRoom(u.slots, cfg.maxPiped);
      RoomNoLater(u.slots, i, cfg.maxPiped);
      IssueIs(cfg, u, c, ok);
      assert k < i ==> u.slots[k].conn.Some?;
      assert OneMorePends(u, IssueCall(cfg, u, c, ok), k, c);
      assert OneMorePends(u, Next(cfg, s, ReplyDone(i, status, ok)), k, c);
    }
  }

  /** The slot of the answered call, before a retry. */
  lemma TakenFollows(cfg: Config, s: Sess, e: Event, i: nat, course: Course)
    requires cfg.Valid() && Sound(cfg, s) && UsedInOrder(s) && i < |s.slots| && Follows(s.slots[i], course)
    requires e.ReplyDone? && e.slot < |s.slots| && s.slots[e.slot].recvq != []
    ensures s.slots[e.slot].pending != [] && s.slots[e.slot].numSent > 0
    ensures Follows(SetSlot(s, e.slot, AfterDone(s.slots[e.slot])).slots[i], After(course, e, i))
  {
    TakenIs(cfg, s, e.slot);
  }

  lemma OneMoreFollows(cfg: Config, s: Sess, t: Sess, k: nat, c: CallId, i: nat, course: Course)
    requires SoundSlots(cfg, s) && UsedInOrder(s) && FirstWithRoom(s.slots, k, cfg.maxPiped) && OneMorePends(s, t, k, c)
    requires i < |s.slots| && Follows(s.slots[i], course)
    ensures UsedInOrder(t) && Follows(t.slots[i], course)
  {
    FullAreUsed(cfg, s, k);
  }

  lemma ReplyFollows(cfg: Config, s: Sess, e: Event, i: nat, course: Course)
    requires cfg.Valid() && Sound(cfg, s) && UsedInOrder(s) && !s.gone && i < |s.slots| && Follows(s.slots[i], course)
    requires e.ReplyDone? && Enabled(s, e) && !Next(cfg, s, e).gone
    ensures Stays(s, Next(cfg, s, e), i, After(course, e, i))
  {
    var t, j := Next(cfg, s, e), e.slot;
    ReplyDoneIs(cfg, s, j, e.status, e.connOk);
    var u := SetSlot(s, j, AfterDone(s.slots[j]));
    TakenIs(cfg, s, j);
    TakenFollows(cfg, s, e, i, course);
    if cfg.failureStatus != 0 && e.status == cfg.failureStatus {
      var k: nat :| k <= j && FirstWithRoom(u.slots, k, cfg.maxPiped) && OneMorePends(u, t, k, s.slots[j].recvq[0]);
      OneMoreFollows(cfg, u, t, k, s.slots[j].recvq[0], i, After(course, e, i));
    }
  }

  /** t has the slots of s, in use in order, and slot i follows its course. */
  ghost predicate Stays(s: Sess, t: Sess, i: nat, course: Course) {
    i < |s.slots| == |t.slots| && UsedInOrder(t) && Follows(t.slots[i], course)
  }

  lemma ConnectedIs(s: Sess, j: nat)
    requires Enabled(s, Connected(j))
    ensures var t := SendAll(SetSlot(s, j, s.slots[j].(isConnected := true)), j);
            && t.gone == s.gone && t.fate == s.fate && |t.slots| == |s.slots|
            && (forall m :: 0 <= m < |s.slots| && m != j ==> t.slots[m] == s.slots[m])
            && t.slots[j].isConnected && t.slots[j].recvq == s.slots[j].recvq
            && t.slots[j].isSuccessful == s.slots[j].isSuccessful && t.slots[j].conn == s.slots[j].conn
  {
    SendAllKeeps(SetSlot(s, j, s.slots[j].(isConnected := true)), j);
  }

  lemma ConnectedFollows(cfg: Config, s: Sess, e: Event, i: nat, course: Course)
    requires UsedInOrder(s) && i < |s.slots| && Follows(s.slots[i], course)
    requires e.Connected? && Enabled(s, e)
    ensures Stays(s, Next(cfg, s, e), i, After(course, e, i))
  {
    ConnectedIs(s, e.slot);
  }

  lemma SentFollows(cfg: Config, s: Sess, e: Event, i: nat, course: Course)
    requires UsedInOrder(s) && i < |s.slots| && Follows(s.slots[i], course)
    requires e.RequestSent? && Enabled(s, e)
    ensures Stays(s, Next(cfg, s, e), i, After(course, e, i))
  {
  }

  lemma FailedFollows(cfg: Config, s: Sess, e: Event, i: nat, course: Course)
    requires UsedInOrder(s) && i < |s.slots| && Follows(s.slots[i], course)
    requires e.ConnFailed? && Enabled(s, e) && !Next(cfg, s, e).gone
    ensures Stays(s, Next(cfg, s, e), i, After(course, e, i))
  {
  }

  lemma NextFollows(cfg: Config, s: Sess, e: Event, i: nat, course: Course)
    requires cfg.Valid() && Sound(cfg, s) && UsedInOrder(s) && !s.gone && i < |s.slots| && Follows(s.slots[i], course)
    requires Enabled(s, e) && !Next(cfg, s, e).gone
    ensures Stays(s, Next(cfg, s, e), i, After(course, e, i))
  {
    if e.Issue? {
      IssueFollows(cfg, s, e.call, e.connOk, i, course);
    } else if e.Connected? {
      ConnectedFollows(cfg, s, e, i, course);
    } else if e.RequestSent? {
      SentFollows(cfg, s, e, i, course);
    } else if e.ReplyDone? {
      ReplyFollows(cfg, s, e, i, course);
    } else if e.ConnFailed? {
      FailedFollows(cfg, s, e, i, course);
    }
  }

  lemma {:induction false} RunFollows(cfg: Config, s: Sess, events: seq<Event>, i: nat, course: Course)
    requires cfg.Valid() && Sound(cfg, s) && GoneEmpty(s) && UsedInOrder(s) && CanRun(cfg, s, events)
    requires i < |s.slots| && Follows(s.slots[i], course) && !Run(cfg, s, events).gone
    ensures Stays(s, Run(cfg, s, events), i, CourseOf(course, events, i))
    decreases |events|
  {
    if s.gone {
      SessionHistory.RunStaysGone(cfg, s, events);
    } else if events != [] {
      var t := Next(cfg, s, events[0]);
      NextSound(cfg, s, events[0]);
      NextKeeps(cfg, s, events[0]);
      if t.gone {
        SessionHistory.RunStaysGone(cfg, t, events[1..]);
      } else {
        NextFollows(cfg, s, events[0], i, course);
        RunFollows(cfg, t, events[1..], i, After(course, events[0], i));
      }
    }
  }

  // ----- a success, read off the events

  predicate FailsAt(e: Event, i: nat) {
    e.ConnFailed? && e.slot == i
  }

  ghost predicate NoFailure(events: seq<Event>, i: nat) {
    forall m :: 0 <= m < |events| ==> !FailsAt(events[m], i)
  }

  /** A reply has come on slot i, and its connection has not failed since. */
  ghost predicate AnsweredSince(events: seq<Event>, i: nat) {
    exists k :: 0 <= k < |events| && events[k].ReplyDone? && events[k].slot == i && NoFailure(events[k + 1..], i)
  }

  lemma {:induction false} AnsweredIs(course: Course, events: seq<Event>, i: nat)
    ensures CourseOf(course, events, i).answered <==> AnsweredSince(events, i) || (course.answered && NoFailure(events, i))
    decreases |events|
  {
    if events != [] {
      var e, rest := events[0], events[1..];
      AnsweredIs(After(course, e, i), rest, i);
      AnsweredFirst(events, i);
      assert NoFailure(events, i) <==> !FailsAt(e, i) && NoFailure(rest, i) by {
        assert forall m :: 0 < m < |events| ==> events[m] == rest[m - 1];
      }
    }
  }

  lemma AnsweredFirst(events: seq<Event>, i: nat)
    requires events != []
    ensures AnsweredSince(events, i)
       <==> AnsweredSince(events[1..], i) || (events[0].ReplyDone? && events[0].slot == i && NoFailure(events[1..], i))
  {
    var rest := events[1..];
    if AnsweredSince(events, i) {
      var k :| 0 <= k < |events| && events[k].ReplyDone? && events[k].slot == i && NoFailure(events[k + 1..], i);
      if k > 0 {
        assert rest[k - 1] == events[k] && rest[k..] == events[k + 1..];
      }
    }
    if AnsweredSince(rest, i) {
      var k :| 0 <= k < |rest| && rest[k].ReplyDone? && rest[k].slot == i && NoFailure(rest[k + 1..], i);
      assert events[k + 1] == rest[k] && events[k + 2..] == rest[k + 1..];
    }
  }

  // ----- the theorems

  lemma FreshFollows(cfg: Config, i: nat)
    requires cfg.Valid() && i < cfg.maxConns
    ensures UsedInOrder(Fresh(cfg)) && Follows(Fresh(cfg).slots[i], NO_COURSE)
  {
  }

  /** Over any run that leaves the session alive: whether a slot is connected, how many
      replies it waits for and whether it counts as successful is what its events say. */
  lemma SlotToldByEvents(cfg: Config, events: seq<Event>, i: nat)
    requires cfg.Valid() && CanRun(cfg, Fresh(cfg), events) && i < cfg.maxConns
    requires !Run(cfg, Fresh(cfg), events).gone
    ensures var t := Run(cfg, Fresh(cfg), events);
            var told := CourseOf(Course(false, 0, false), events, i);
            && |t.slots| == cfg.maxConns && UsedInOrder(t) && Sound(cfg, t)
            && t.slots[i].isConnected == told.connected && |t.slots[i].recvq| == told.unanswered
            && (t.slots[i].isSuccessful <==> AnsweredSince(events, i))
  {
    FreshSound(cfg);
    FreshFollows(cfg, i);
    RunSound(cfg, Fresh(cfg), events);
    RunFollows(cfg, Fresh(cfg), events, i, NO_COURSE);
    AnsweredIs(NO_COURSE, events, i);
  }

  /** What ends a session that is alive after these events. */
  ghost predicate Ends(cfg: Config, events: seq<Event>, slots: seq<Slot>, e: Event) {
    match e
    case Issue(_, ok) => !ok && exists k: nat :: FirstWithRoom(slots, k, cfg.maxPiped) && slots[k].conn.None?
    case ReplyDone(_, status, _) => cfg.failureStatus != 0 && status == cfg.failureStatus && !cfg.retryOnFailure
    case ConnFailed(i, ok) => !ok || !(cfg.retryOnFailure || AnsweredSince(events, i))
    case ConnTimeout(_) => true
    case End => true
    case _ => false
  }

  /** A session that is alive after these events. */
  ghost predicate Alive(cfg: Config, events: seq<Event>, t: Sess) {
    && cfg.Valid() && Sound(cfg, t) && UsedInOrder(t) && !t.gone && |t.slots| == cfg.maxConns
    && forall i: nat :: i < |t.slots| ==> (t.slots[i].isSuccessful <==> AnsweredSince(events, i))
  }

  lemma RunAlive(cfg: Config, events: seq<Event>)
    requires cfg.Valid() && CanRun(cfg, Fresh(cfg), events) && !Run(cfg, Fresh(cfg), events).gone
    ensures Alive(cfg, events, Run(cfg, Fresh(cfg), events))
  {
    var t := Run(cfg, Fresh(cfg), events);
    SlotToldByEvents(cfg, events, 0);
    forall i: nat | i < |t.slots| ensures t.slots[i].isSuccessful <==> AnsweredSince(events, i) {
      SlotToldByEvents(cfg, events, i);
    }
  }

  lemma IssueEnds(cfg: Config, events: seq<Event>, t: Sess, e: Event)
    requires Alive(cfg, events, t) && e.Issue? && Enabled(t, e)
    ensures Next(cfg, t, e).gone <==> Ends(cfg, events, t.slots, e)
    ensures Next(cfg, t, e).fate.ExitedTooManyCalls? <==> AllFull(t.slots, cfg.maxPiped)
  {
    IssueIs(cfg, t, e.call, e.connOk);
    OneFirst(t.slots, cfg.maxPiped);
  }

  lemma FailureEnds(cfg: Config, events: seq<Event>, t: Sess, e: Event)
    requires Alive(cfg, events, t) && e.ConnFailed? && Enabled(t, e)
    ensures Next(cfg, t, e).gone <==> Ends(cfg, events, t.slots, e)
    ensures Next(cfg, t, e).fate == t.fate
  {
    assert t.slots[e.slot].isSuccessful <==> AnsweredSince(events, e.slot);
  }

  lemma NextEnds(cfg: Config, events: seq<Event>, t: Sess, e: Event)
    requires Alive(cfg, events, t) && Enabled(t, e)
    ensures Next(cfg, t, e).gone <==> Ends(cfg, events, t.slots, e)
    ensures Next(cfg, t, e).fate.ExitedTooManyCalls? <==> e.Issue? && AllFull(t.slots, cfg.maxPiped)
  {
    if e.Issue? {
      IssueEnds(cfg, events, t, e);
    } else if e.Connected? {
      ConnectedIs(t, e.slot);
    } else if e.ReplyDone? {
      ReplyDoneIs(cfg, t, e.slot, e.status, e.connOk);
    } else if e.ConnFailed? {
      FailureEnds(cfg, events, t, e);
    }
  }

  /** A session ends exactly with: a call that needs a connection that is not to be had; a
      reply with the failure status where there is no retry; a connection that fails without
      a retry or a reply since it was made, or that cannot be replaced; a timeout; the end. */
  lemma EndsExactly(cfg: Config, events: seq<Event>, e: Event)
    requires cfg.Valid() && CanRun(cfg, Fresh(cfg), events) && !Run(cfg, Fresh(cfg), events).gone
    requires Enabled(Run(cfg, Fresh(cfg), events), e)
    ensures var t := Run(cfg, Fresh(cfg), events);
            Next(cfg, t, e).gone <==> Ends(cfg, events, t.slots, e)
  {
    RunAlive(cfg, events);
    NextEnds(cfg, events, Run(cfg, Fresh(cfg), events), e);
  }

  lemma OneFirst(slots: seq<Slot>, maxPiped: nat)
    ensures forall k: nat :: FirstWithRoom(slots, k, maxPiped) ==> k == FirstRoom(slots, maxPiped)
  {
  }

  /** A connection that fails and can be replaced: the session survives if and only if it
      retries or has been answered since the connection was made. */
  lemma SurvivesFailure(cfg: Config, events: seq<Event>, i: nat)
    requires cfg.Valid() && CanRun(cfg, Fresh(cfg), events) && !Run(cfg, Fresh(cfg), events).gone
    requires Enabled(Run(cfg, Fresh(cfg), events), ConnFailed(i, true))
    ensures !Next(cfg, Run(cfg, Fresh(cfg), events), ConnFailed(i, true)).gone
       <==> cfg.retryOnFailure || AnsweredSince(events, i)
  {
    EndsExactly(cfg, events, ConnFailed(i, true));
  }

  /** The program ends exactly with a call that is issued when every connection has as many
      calls pending as it may have. */
  lemma ExitsExactly(cfg: Config, events: seq<Event>, e: Event)
    requires cfg.Valid() && CanRun(cfg, Fresh(cfg), events) && !Run(cfg, Fresh(cfg), events).gone
    requires Enabled(Run(cfg, Fresh(cfg), events), e)
    ensures var t := Run(cfg, Fresh(cfg), events);
            Next(cfg, t, e).fate == ExitedTooManyCalls <==>
              e.Issue? && forall k :: 0 <= k < |t.slots| ==> |t.slots[k].pending| == cfg.maxPiped
  {
    var t := Run(cfg, Fresh(cfg), events);
    RunAlive(cfg, events);
    NextEnds(cfg, events, t, e);
    FullIsEqual(cfg, t);
  }

  lemma FullIsEqual(cfg: Config, t: Sess)
    requires Sound(cfg, t)
    ensures AllFull(t.slots, cfg.maxPiped) <==> forall k :: 0 <= k < |t.slots| ==> |t.slots[k].pending| == cfg.maxPiped
  {
    assert forall k :: 0 <= k < |t.slots| ==> SlotSound(cfg, t.slots[k]);
  }

  /** Where a call goes that is issued and ends neither: behind the others on the first slot
      that has room. */
  lemma IssuedPends(cfg: Config, events: seq<Event>, c: CallId, ok: bool)
    requires cfg.Valid() && CanRun(cfg, Fresh(cfg), events) && !Run(cfg, Fresh(cfg), events).gone
    requires Enabled(Run(cfg, Fresh(cfg), events), Issue(c, ok))
    ensures var t := Run(cfg, Fresh(cfg), events);
            var u := Next(cfg, t, Issue(c, ok));
            !u.gone && !u.fate.ExitedTooManyCalls? ==>
              exists k: nat :: FirstWithRoom(t.slots, k, cfg.maxPiped) && OneMorePends(t, u, k, c)
  {
    SlotToldByEvents(cfg, events, 0);
    IssueIs(cfg, Run(cfg, Fresh(cfg), events), c, ok);
  }

  /** A reply with the failure status, where there is a retry: its call pends again, behind
      the others of the first slot that has room, its own at the latest. */
  lemma RetriedPends(cfg: Config, events: seq<Event>, i: nat, ok: bool)
    requires cfg.Valid() && cfg.retryOnFailure && cfg.failureStatus != 0
    requires CanRun(cfg, Fresh(cfg), events) && !Run(cfg, Fresh(cfg), events).gone
    requires Enabled(Run(cfg, Fresh(cfg), events), ReplyDone(i, cfg.failureStatus, ok))
    ensures var t := Run(cfg, Fresh(cfg), events); PendsAgain(cfg, t, i, Next(cfg, t, ReplyDone(i, cfg.failureStatus, ok)))
  {
    RunAlive(cfg, events);
    RetryPends(cfg, Run(cfg, Fresh(cfg), events), i, ok);
  }

  /** The head of ring i, whose call has been answered, is now the last of ring k, which is
      the first one that has room when it has left. */
  ghost predicate PendsAgain(cfg: Config, t: Sess, i: nat, u: Sess)
    requires i < |t.slots|
  {
    && t.slots[i].pending != [] && t.slots[i].recvq != [] && t.slots[i].pending[0] == t.slots[i].recvq[0]
    && !u.gone && u.fate.Running? && |u.slots| == |t.slots|
    && exists k: nat :: k <= i && MovedTo(cfg, t, i, u, k)
  }

  ghost predicate MovedTo(cfg: Config, t: Sess, i: nat, u: Sess, k: nat)
    requires k <= i < |t.slots| == |u.slots| && t.slots[i].pending != []
  {
    && (forall m :: 0 <= m < k ==> |t.slots[m].pending| == cfg.maxPiped)
    && (k < i ==> |t.slots[k].pending| < cfg.maxPiped)
    && forall m :: 0 <= m < |t.slots| ==>
         u.slots[m].pending == (if m == i then t.slots[i].pending[1..] else t.slots[m].pending)
                               + (if m == k then [t.slots[i].pending[0]] else [])
  }

  lemma RetryPends(cfg: Config, t: Sess, i: nat, ok: bool)
    requires cfg.Valid() && Sound(cfg, t) && UsedInOrder(t) && !t.gone
    requires cfg.retryOnFailure && cfg.failureStatus != 0 && Enabled(t, ReplyDone(i, cfg.failureStatus, ok))
    ensures PendsAgain(cfg, t, i, Next(cfg, t, ReplyDone(i, cfg.failureStatus, ok)))
  {
    var u, c := Next(cfg, t, ReplyDone(i, cfg.failureStatus, ok)), t.slots[i].recvq[0];
    ReplyDoneIs(cfg, t, i, cfg.failureStatus, ok);
    TakenIs(cfg, t, i);
    var mid := SetSlot(t, i, AfterDone(t.slots[i]));
    var k: nat :| k <= i && FirstWithRoom(mid.slots, k, cfg.maxPiped) && OneMorePends(mid, u, k, c);
    RetryMoves(cfg, t, i, mid, u, k);
  }

  lemma RetryMoves(cfg: Config, t: Sess, i: nat, mid: Sess, u: Sess, k: nat)
    requires k <= i < |t.slots| && t.slots[i].pending != [] && t.slots[i].recvq != [] && t.slots[i].numSent > 0
    requires forall m :: 0 <= m < |t.slots| ==> |t.slots[m].pending| <= cfg.maxPiped
    requires mid == SetSlot(t, i, AfterDone(t.slots[i]))
    requires FirstWithRoom(mid.slots, k, cfg.maxPiped) && OneMorePends(mid, u, k, t.slots[i].pending[0])
    ensures MovedTo(cfg, t, i, u, k)
  {
    forall m | 0 <= m < k ensures |t.slots[m].pending| == cfg.maxPiped {
      assert mid.slots[m] == t.slots[m];
    }
    assert k < i ==> mid.slots[k] == t.slots[k];
    forall m | 0 <= m < |t.slots|
      ensures u.slots[m].pending == (if m == i then t.slots[i].pending[1..] else t.slots[m].pending)
                                    + (if m == k then [t.slots[i].pending[0]] else []) {
      assert m != k ==> u.slots[m] == mid.slots[m];
      assert m != i ==> mid.slots[m] == t.slots[m];
    }
  }
}
