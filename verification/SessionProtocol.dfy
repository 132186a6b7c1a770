/** The session protocol: calls issued on up to four connections, pipelined, sent,
    answered, and re-sent on a new connection when one fails.  Every step here is
    what one event does to a session from start to finish, written out with its
    reference counts; SessionRings is the code that performs the steps. */
module SessionProtocol {
  import opened Shared

  type CallId = nat
  type ConnId = nat

  const MAX_CONN: nat := 4
  const MAX_PIPED: nat := 32

  /** param.* as far as the session module looks at it. */
  datatype Config = Config(maxConns: nat, maxPiped: nat, retryOnFailure: bool, failureStatus: nat)
  {
    predicate Valid() {
      1 <= maxConns <= MAX_CONN && 1 <= maxPiped <= MAX_PIPED
    }
  }

  /** A struct Conn_Info with its connection's queues.  `issued` and `completed`
      record the slot's history and decide nothing. */
  datatype Slot = Slot(
    conn: Option<ConnId>, isConnected: bool, isSuccessful: bool,
    pending: seq<CallId>, numSent: nat,
    sendq: seq<CallId>, recvq: seq<CallId>,
    issued: seq<CallId>, completed: seq<CallId>)

  /** Reference counts: count[c] is call c's ref_count, `destroyed` logs the calls whose
      count dropped to zero, and `underflow` says whether the assertion that a count
      is not zero yet has failed. */
  datatype Refs = Refs(count: multiset<CallId>, destroyed: seq<CallId>, underflow: bool)
  {
    function Inc(c: CallId): Refs {
      this.(count := count + multiset{c})
    }

    /** object_dec_ref. */
    function Dec(c: CallId): Refs {
      if c !in count then this.(underflow := true)
      else this.(count := count - multiset{c}, destroyed := if count[c] == 1 then destroyed + [c] else destroyed)
    }

    function DecAll(calls: seq<CallId>): Refs
      decreases |calls|
    {
      if calls == [] then this else Dec(calls[0]).DecAll(calls[1..])
    }
  }

  datatype Fate = Running | ExitedTooManyCalls | AssertionFailed

  /** `callConn` is call->conn and `owner` leads from a connection to its slot;
      `holds` are the creators' references to their calls; `gone` once the session
      has failed or ended. */
  datatype Sess = Sess(
    slots: seq<Slot>, refs: Refs,
    callConn: map<CallId, ConnId>, owner: map<ConnId, nat>, nextConn: ConnId,
    created: set<CallId>, holds: multiset<CallId>,
    gone: bool, fate: Fate)

  datatype Event =
    | NewCall(call: CallId)
    | Issue(call: CallId, connOk: bool)
    | Release(call: CallId)
    | Connected(slot: nat)
    | RequestSent(slot: nat)
    | ReplyDone(slot: nat, status: nat, connOk: bool)
    | ConnFailed(slot: nat, connOk: bool)
    | ConnTimeout(slot: nat)
    | End

  const EMPTY_SLOT := Slot(None, false, false, [], 0, [], [], [], [])

  function EmptySlots(n: nat): (slots: seq<Slot>)
    ensures |slots| == n && forall i :: 0 <= i < n ==> slots[i] == EMPTY_SLOT
  {
    if n == 0 then [] else EmptySlots(n - 1) + [EMPTY_SLOT]
  }

  function Fresh(cfg: Config): Sess {
    Sess(EmptySlots(cfg.maxConns), Refs(multiset{}, [], false), map[], map[], 0, {}, multiset{}, false, Running)
  }

  // ---- the steps ----

  function SetSlot(s: Sess, i: nat, slot: Slot): Sess
    requires i < |s.slots|
  {
    s.(slots := s.slots[i := slot])
  }

  /** sess_destroyed: every connection is closed, then the ring is given up. */
  function GiveUp(r: Refs, slots: seq<Slot>): Refs
    decreases |slots|
  {
    if slots == [] then r
    else GiveUp(r.DecAll(slots[0].sendq).DecAll(slots[0].recvq).DecAll(slots[0].pending), slots[1..])
  }

  function SessGone(s: Sess): Sess {
    s.(slots := EmptySlots(|s.slots|), refs := GiveUp(s.refs, s.slots), gone := true)
  }

  /** One round of sess_destroyed's loop. */
  function DropSlot(s: Sess, i: nat): Sess
    requires i < |s.slots|
  {
    var slot := s.slots[i];
    SetSlot(s, i, EMPTY_SLOT).(refs := s.refs.DecAll(slot.sendq).DecAll(slot.recvq).DecAll(slot.pending))
  }

  function DropFrom(s: Sess, i: nat): Sess
    requires i <= |s.slots|
    decreases |s.slots| - i
  {
    if i == |s.slots| then s else DropFrom(DropSlot(s, i), i + 1)
  }

  lemma {:induction false} DropFromIs(s: Sess, i: nat)
    requires i <= |s.slots|
    ensures DropFrom(s, i) == s.(slots := s.slots[..i] + EmptySlots(|s.slots| - i), refs := GiveUp(s.refs, s.slots[i..]))
    decreases |s.slots| - i
  {
    if i == |s.slots| {
      assert s.slots[..i] + [] == s.slots;
    } else {
      DropFromIs(DropSlot(s, i), i + 1);
      assert DropSlot(s, i).slots[i + 1..] == s.slots[i..][1..];
      assert DropSlot(s, i).slots[..i + 1] + EmptySlots(|s.slots| - i - 1) == s.slots[..i] + EmptySlots(|s.slots| - i);
    }
  }

  lemma DroppedIsGone(s: Sess)
    ensures DropFrom(s, 0).(gone := true) == SessGone(s)
  {
    DropFromIs(s, 0);
    assert s.slots[0..] == s.slots && s.slots[..0] + EmptySlots(|s.slots|) == EmptySlots(|s.slots|);
  }

  /** create_conn; ok is false when there is no memory or no port for one. */
  function CreateConn(s: Sess, i: nat, ok: bool): Sess
    requires i < |s.slots|
  {
    var slot := s.slots[i].(sendq := [], recvq := []);
    if !ok then SessGone(SetSlot(s, i, slot.(conn := None)))
    else
      SetSlot(s, i, slot.(conn := Some(s.nextConn), isConnected := false, isSuccessful := false, numSent := 0))
      .(owner := s.owner[s.nextConn := i], nextConn := s.nextConn + 1)
  }

  /** core_send of the next call that has not been sent. */
  function CoreSend(s: Sess, i: nat): Sess
    requires i < |s.slots| && s.slots[i].conn.Some? && s.slots[i].numSent < |s.slots[i].pending|
  {
    var slot := s.slots[i];
    var c := slot.pending[slot.numSent];
    SetSlot(s, i, slot.(sendq := slot.sendq + [c], numSent := slot.numSent + 1))
    .(callConn := s.callConn[c := slot.conn.value], refs := s.refs.Inc(c))
  }

  function SendAll(s: Sess, i: nat): (t: Sess)
    requires i < |s.slots| && s.slots[i].conn.Some?
    ensures |t.slots| == |s.slots|
    decreases |s.slots[i].pending| - s.slots[i].numSent
  {
    if s.slots[i].numSent < |s.slots[i].pending| then SendAll(CoreSend(s, i), i) else s
  }

  function SendCalls(s: Sess, i: nat, ok: bool): Sess
    requires i < |s.slots|
  {
    if s.slots[i].conn.None? then CreateConn(s, i, ok)
    else if !s.slots[i].isConnected then s
    else SendAll(s, i)
  }

  function FirstRoom(slots: seq<Slot>, maxPiped: nat): (i: nat)
    ensures i <= |slots| && (i < |slots| ==> |slots[i].pending| < maxPiped)
    ensures forall k :: 0 <= k < i ==> |slots[k].pending| >= maxPiped
  {
    if slots == [] || |slots[0].pending| < maxPiped then 0 else 1 + FirstRoom(slots[1..], maxPiped)
  }

  function Enqueued(slot: Slot, c: CallId): Slot {
    slot.(pending := slot.pending + [c], issued := slot.issued + [c])
  }

  function IssueCall(cfg: Config, s: Sess, c: CallId, ok: bool): Sess {
    var i := FirstRoom(s.slots, cfg.maxPiped);
    if i == |s.slots| then s.(fate := ExitedTooManyCalls)
    else
      var slot := s.slots[i];
      SendCalls(SetSlot(s, i, Enqueued(slot, c)).(refs := s.refs.Inc(c)), i, ok)
  }

  /** do_send when the request at the head of the send queue is out. */
  function Sent(s: Sess, i: nat): Sess
    requires i < |s.slots| && s.slots[i].sendq != []
  {
    var slot := s.slots[i];
    SetSlot(s, i, slot.(sendq := slot.sendq[1..], recvq := slot.recvq + [slot.sendq[0]]))
  }

  /** call_done takes the call from the ring of its connection, if it heads it. */
  function TakeDone(s: Sess, c: CallId): Sess {
    if c !in s.callConn || s.callConn[c] !in s.owner || s.owner[s.callConn[c]] >= |s.slots| then
      s.(fate := AssertionFailed)
    else
      var k := s.owner[s.callConn[c]];
      var slot := s.slots[k];
      if slot.pending == [] || slot.pending[0] != c || slot.numSent == 0 then s.(fate := AssertionFailed)
      else SetSlot(s, k, slot.(isSuccessful := true, pending := slot.pending[1..], numSent := slot.numSent - 1,
                               completed := slot.completed + [c]))
  }

  /** A reply with the failure status is retried, or fails the session. */
  function AfterStatus(cfg: Config, s: Sess, c: CallId, status: nat, ok: bool): Sess {
    if cfg.failureStatus == 0 || status != cfg.failureStatus then s
    else if cfg.retryOnFailure then IssueCall(cfg, s, c, ok)
    else SessGone(s)
  }

  function CallDone(cfg: Config, s: Sess, c: CallId, status: nat, ok: bool): Sess {
    var s1 := TakeDone(s, c);
    if s1.fate != s.fate then s1
    else
      var s2 := AfterStatus(cfg, s1, c, status, ok);
      s2.(refs := s2.refs.Dec(c))
  }

  /** recv_done: out of the receive queue, call_done, and the queue's reference. */
  function Done(cfg: Config, s: Sess, i: nat, status: nat, ok: bool): Sess
    requires i < |s.slots| && s.slots[i].recvq != []
  {
    var slot := s.slots[i];
    var c := slot.recvq[0];
    var s1 := CallDone(cfg, SetSlot(s, i, slot.(recvq := slot.recvq[1..])), c, status, ok);
    if s1.fate.AssertionFailed? then s1 else s1.(refs := s1.refs.Dec(c))
  }

  /** conn_failure: the session's handler first, then core_close. */
  function Failed(cfg: Config, s: Sess, i: nat, ok: bool): Sess
    requires i < |s.slots|
  {
    var slot := s.slots[i];
    if slot.isSuccessful || cfg.retryOnFailure then
      var s1 := CreateConn(s, i, ok);
      s1.(refs := s1.refs.DecAll(slot.sendq).DecAll(slot.recvq))
    else SessGone(s)
  }

  predicate Pending(s: Sess, c: CallId) {
    exists i :: 0 <= i < |s.slots| && c in s.slots[i].pending
  }

  /** When the rest of the program can bring an event about. */
  predicate Enabled(s: Sess, e: Event) {
    s.fate.Running? &&
    match e
    case NewCall(c) => c !in s.created
    case Issue(c, _) => !s.gone && c in s.holds && !Pending(s, c)
    case Release(c) => c in s.holds
    case Connected(i) => i < |s.slots| && s.slots[i].conn.Some? && !s.slots[i].isConnected
    case RequestSent(i) => i < |s.slots| && s.slots[i].sendq != []
    case ReplyDone(i, _, _) => i < |s.slots| && s.slots[i].recvq != []
    case ConnFailed(i, _) => i < |s.slots| && s.slots[i].conn.Some?
    case ConnTimeout(i) => i < |s.slots| && s.slots[i].conn.Some?
    case End => !s.gone
  }

  function Next(cfg: Config, s: Sess, e: Event): Sess
    requires Enabled(s, e)
  {
    match e
    case NewCall(c) =>
      s.(created := s.created + {c}, holds := s.holds + multiset{c}, refs := s.refs.Inc(c))
    case Issue(c, ok) => IssueCall(cfg, s, c, ok)
    case Release(c) => s.(holds := s.holds - multiset{c}, refs := s.refs.Dec(c))
    case Connected(i) => SendAll(SetSlot(s, i, s.slots[i].(isConnected := true)), i)
    case RequestSent(i) => Sent(s, i)
    case ReplyDone(i, status, ok) => Done(cfg, s, i, status, ok)
    case ConnFailed(i, ok) => Failed(cfg, s, i, ok)
    case ConnTimeout(i) => SessGone(s)
    case End => SessGone(s)
  }

  // ---- what every step keeps ----

  /** The ring and the queues of a slot. */
  predicate SlotSound(cfg: Config, slot: Slot) {
    && slot.numSent <= |slot.pending| <= cfg.maxPiped
    && slot.pending[..slot.numSent] == slot.recvq + slot.sendq
    && (slot.isConnected ==> slot.conn.Some? && slot.numSent == |slot.pending|)
    && (!slot.isConnected ==> slot.numSent == 0)
    && (slot.conn.None? ==> slot.pending == [])
    && slot.issued == slot.completed + slot.pending
  }

  function SlotHolds(slot: Slot): multiset<CallId> {
    multiset(slot.pending) + multiset(slot.sendq) + multiset(slot.recvq)
  }

  /** All references from rings and queues. */
  function SlotsHold(slots: seq<Slot>): multiset<CallId> {
    if slots == [] then multiset{} else SlotHolds(slots[0]) + SlotsHold(slots[1..])
  }

  function PendingCalls(slots: seq<Slot>): multiset<CallId> {
    if slots == [] then multiset{} else multiset(slots[0].pending) + PendingCalls(slots[1..])
  }

  ghost predicate AtMostOnce(calls: multiset<CallId>) {
    forall c :: calls[c] <= 1
  }

  /** A call is destroyed exactly when its count is back at zero, and then once. */
  ghost predicate RefsSound(r: Refs, created: set<CallId>) {
    && !r.underflow
    && forall c ::
         && (c in r.count ==> c in created)
         && multiset(r.destroyed)[c] == if c in created && c !in r.count then 1 else 0
  }

  /** Queued calls know their connection, and the connection knows its slot. */
  ghost predicate SlotLinked(callConn: map<CallId, ConnId>, owner: map<ConnId, nat>, i: nat, slot: Slot) {
    && (slot.conn.Some? ==> slot.conn.value in owner && owner[slot.conn.value] == i)
    && (forall c :: c in slot.recvq || c in slot.sendq ==>
          slot.conn.Some? && c in callConn && callConn[c] == slot.conn.value)
  }

  ghost predicate Linked(s: Sess) {
    && (forall i: nat :: i < |s.slots| ==> SlotLinked(s.callConn, s.owner, i, s.slots[i]))
    && (forall k :: k in s.owner ==> k < s.nextConn)
  }

  /** Everything but the state of single slots, when `extra` references are held by
      the step in progress. */
  ghost predicate Common(cfg: Config, s: Sess, extra: multiset<CallId>) {
    && |s.slots| == cfg.maxConns
    && Linked(s)
    && s.refs.count == s.holds + SlotsHold(s.slots) + extra
    && RefsSound(s.refs, s.created)
    && AtMostOnce(PendingCalls(s.slots))
    && !s.fate.AssertionFailed?
  }

  ghost predicate OthersSound(cfg: Config, s: Sess, i: nat) {
    forall k :: 0 <= k < |s.slots| && k != i ==> SlotSound(cfg, s.slots[k])
  }

  ghost predicate SoundWith(cfg: Config, s: Sess, extra: multiset<CallId>) {
    Common(cfg, s, extra) && forall k :: 0 <= k < |s.slots| ==> SlotSound(cfg, s.slots[k])
  }

  /** The invariant between events. */
  ghost predicate Sound(cfg: Config, s: Sess) {
    SoundWith(cfg, s, multiset{})
  }

  // ---- sums over the slots ----

  lemma {:induction false} HoldUpdateOf(slots: seq<Slot>, i: nat, slot: Slot, c: CallId)
    requires i < |slots|
    ensures SlotsHold(slots[i := slot])[c] + SlotHolds(slots[i])[c] == SlotsHold(slots)[c] + SlotHolds(slot)[c]
    ensures SlotHolds(slots[i])[c] <= SlotsHold(slots)[c]
    decreases |slots|
  {
    if i == 0 {
      assert slots[i := slot][1..] == slots[1..];
    } else {
      assert slots[i := slot][1..] == slots[1..][i - 1 := slot];
      HoldUpdateOf(slots[1..], i - 1, slot, c);
    }
  }

  lemma HoldUpdate(slots: seq<Slot>, i: nat, slot: Slot)
    requires i < |slots|
    ensures SlotsHold(slots[i := slot]) + SlotHolds(slots[i]) == SlotsHold(slots) + SlotHolds(slot)
    ensures SlotHolds(slots[i]) <= SlotsHold(slots)
  {
    forall c ensures SlotsHold(slots[i := slot])[c] + SlotHolds(slots[i])[c] == SlotsHold(slots)[c] + SlotHolds(slot)[c]
                     && SlotHolds(slots[i])[c] <= SlotsHold(slots)[c] {
      HoldUpdateOf(slots, i, slot, c);
    }
  }

  lemma {:induction false} PendingUpdateOf(slots: seq<Slot>, i: nat, slot: Slot, c: CallId)
    requires i < |slots|
    ensures PendingCalls(slots[i := slot])[c] + multiset(slots[i].pending)[c]
            == PendingCalls(slots)[c] + multiset(slot.pending)[c]
    ensures multiset(slots[i].pending)[c] <= PendingCalls(slots)[c]
    decreases |slots|
  {
    if i == 0 {
      assert slots[i := slot][1..] == slots[1..];
    } else {
      assert slots[i := slot][1..] == slots[1..][i - 1 := slot];
      PendingUpdateOf(slots[1..], i - 1, slot, c);
    }
  }

  lemma {:induction false} NothingHeld(slots: seq<Slot>)
    requires forall k :: 0 <= k < |slots| ==> slots[k] == EMPTY_SLOT
    ensures SlotsHold(slots) == multiset{} && PendingCalls(slots) == multiset{}
    decreases |slots|
  {
    if slots != [] {
      NothingHeld(slots[1..]);
    }
  }

  /** A call pends in one place only. */
  lemma PendingOnce(s: Sess, i: nat, k: nat, c: CallId)
    requires i < |s.slots| && k < |s.slots| && PendingCalls(s.slots)[c] <= 1
    requires c in s.slots[i].pending && c in s.slots[k].pending
    ensures i == k
  {
    if i != k {
      var none := s.slots[i].(pending := []);
      PendingUpdateOf(s.slots, i, none, c);
      assert s.slots[i := none][k] == s.slots[k];
      PendingUpdateOf(s.slots[i := none], k, none, c);
    }
  }

  lemma {:induction false} NotPending(slots: seq<Slot>, c: CallId)
    requires forall k :: 0 <= k < |slots| ==> c !in slots[k].pending
    ensures c !in PendingCalls(slots)
    decreases |slots|
  {
    if slots != [] {
      assert forall k :: 0 <= k < |slots[1..]| ==> slots[1..][k] == slots[k + 1];
      NotPending(slots[1..], c);
    }
  }

  // ---- giving references up ----

  lemma {:induction false} DecAllSound(r: Refs, calls: seq<CallId>, created: set<CallId>)
    requires RefsSound(r, created) && multiset(calls) <= r.count
    ensures r.DecAll(calls).count == r.count - multiset(calls) && RefsSound(r.DecAll(calls), created)
    decreases |calls|
  {
    if calls != [] {
      assert calls == [calls[0]] + calls[1..];
      DecSound(r, calls[0], created);
      DecAllSound(r.Dec(calls[0]), calls[1..], created);
    }
  }

  lemma DecSound(r: Refs, c: CallId, created: set<CallId>)
    requires RefsSound(r, created) && c in r.count
    ensures RefsSound(r.Dec(c), created)
  {
  }

  lemma {:induction false} GiveUpSound(r: Refs, slots: seq<Slot>, created: set<CallId>)
    requires RefsSound(r, created) && SlotsHold(slots) <= r.count
    ensures GiveUp(r, slots).count == r.count - SlotsHold(slots) && RefsSound(GiveUp(r, slots), created)
    decreases |slots|
  {
    if slots != [] {
      var slot := slots[0];
      var r1 := r.DecAll(slot.sendq);
      var r2 := r1.DecAll(slot.recvq);
      DecAllSound(r, slot.sendq, created);
      DecAllSound(r1, slot.recvq, created);
      DecAllSound(r2, slot.pending, created);
      GiveUpSound(r2.DecAll(slot.pending), slots[1..], created);
    }
  }

  lemma GoneCount(s: Sess, extra: multiset<CallId>)
    requires s.refs.count == s.holds + SlotsHold(s.slots) + extra && RefsSound(s.refs, s.created)
    ensures SessGone(s).refs.count == s.holds + extra && RefsSound(SessGone(s).refs, s.created)
  {
    CountWithout(s.holds, SlotsHold(s.slots), extra);
    GiveUpSound(s.refs, s.slots, s.created);
  }

  lemma GoneSlots(cfg: Config, s: Sess)
    requires Linked(s)
    ensures Linked(SessGone(s))
    ensures forall k :: 0 <= k < |s.slots| ==> SlotSound(cfg, SessGone(s).slots[k])
  {
  }

  lemma SessGoneSound(cfg: Config, s: Sess, extra: multiset<CallId>)
    requires Common(cfg, s, extra)
    ensures SoundWith(cfg, SessGone(s), extra)
  {
    GoneCount(s, extra);
    GoneSlots(cfg, s);
    NothingHeld(SessGone(s).slots);
  }

  lemma CountWithout(a: multiset<CallId>, b: multiset<CallId>, c: multiset<CallId>)
    ensures a + b + c - b == a + c && b <= a + b + c
  {
  }

  // ---- the steps keep the invariant ----

  ghost predicate RingSound(cfg: Config, slot: Slot) {
    |slot.pending| <= cfg.maxPiped && slot.issued == slot.completed + slot.pending
  }

  /** A slot can be replaced by one with the same references and a sound link. */
  lemma ReplaceSlot(cfg: Config, s: Sess, i: nat, slot: Slot, extra: multiset<CallId>, extra': multiset<CallId>)
    requires Common(cfg, s, extra) && i < |s.slots|
    requires SlotHolds(slot) + extra' == SlotHolds(s.slots[i]) + extra
    requires forall c :: multiset(slot.pending)[c] <= multiset(s.slots[i].pending)[c]
    requires SlotLinked(s.callConn, s.owner, i, slot)
    ensures Common(cfg, SetSlot(s, i, slot), extra')
  {
    HoldUpdate(s.slots, i, slot);
    CountExchange(s.holds, SlotsHold(s.slots), SlotsHold(s.slots[i := slot]), SlotHolds(s.slots[i]), SlotHolds(slot), extra, extra');
    var n := PendingCalls(s.slots[i := slot]);
    forall c ensures n[c] <= 1 {
      PendingUpdateOf(s.slots, i, slot, c);
    }
  }

  lemma CountExchange(holds: multiset<CallId>, a: multiset<CallId>, a': multiset<CallId>,
                      b: multiset<CallId>, b': multiset<CallId>, e: multiset<CallId>, e': multiset<CallId>)
    requires a' + b == a + b' && b' + e' == b + e
    ensures holds + a + e == holds + a' + e'
  {
    var m, m' := holds + a + e, holds + a' + e';
    forall c ensures m[c] == m'[c] {
      assert (a' + b)[c] == (a + b')[c] && (b' + e')[c] == (b + e)[c];
    }
  }

  lemma SameHolds(slots: seq<Slot>, i: nat, slot: Slot)
    requires i < |slots| && SlotHolds(slot) == SlotHolds(slots[i]) && slot.pending == slots[i].pending
    ensures SlotsHold(slots[i := slot]) == SlotsHold(slots)
    ensures PendingCalls(slots[i := slot]) == PendingCalls(slots)
  {
    var m, m', n, n' := SlotsHold(slots), SlotsHold(slots[i := slot]), PendingCalls(slots), PendingCalls(slots[i := slot]);
    forall c ensures m[c] == m'[c] && n[c] == n'[c] {
      HoldUpdateOf(slots, i, slot, c);
      PendingUpdateOf(slots, i, slot, c);
    }
  }

  function Detached(slot: Slot): Slot {
    slot.(sendq := [], recvq := [])
  }

  function QueueHolds(slot: Slot): multiset<CallId> {
    multiset(slot.sendq) + multiset(slot.recvq)
  }

  lemma DetachSound(cfg: Config, s: Sess, i: nat, conn: Option<ConnId>, extra: multiset<CallId>)
    requires Common(cfg, s, extra) && i < |s.slots|
    requires conn == None || conn == s.slots[i].conn
    ensures Common(cfg, SetSlot(s, i, Detached(s.slots[i]).(conn := conn)), extra + QueueHolds(s.slots[i]))
  {
    ReplaceSlot(cfg, s, i, Detached(s.slots[i]).(conn := conn), extra, extra + QueueHolds(s.slots[i]));
  }

  /** A fresh connection has a number of its own. */
  lemma NewConnLinked(s: Sess, i: nat, slot: Slot)
    requires Linked(s) && i < |s.slots| && slot.conn == Some(s.nextConn) && slot.sendq == slot.recvq == []
    ensures Linked(SetSlot(s, i, slot).(owner := s.owner[s.nextConn := i], nextConn := s.nextConn + 1))
  {
    var t := SetSlot(s, i, slot).(owner := s.owner[s.nextConn := i], nextConn := s.nextConn + 1);
    forall k: nat | k < |t.slots| ensures SlotLinked(t.callConn, t.owner, k, t.slots[k]) {
      if k != i {
        assert SlotLinked(s.callConn, s.owner, k, s.slots[k]);
      }
    }
  }

  function OnNewConn(slot: Slot, conn: ConnId): Slot {
    slot.(conn := Some(conn), isConnected := false, isSuccessful := false, numSent := 0)
  }

  lemma NewConnSound(cfg: Config, s: Sess, i: nat, extra: multiset<CallId>)
    requires i < |s.slots| && Common(cfg, s, extra) && OthersSound(cfg, s, i) && RingSound(cfg, s.slots[i])
    requires s.slots[i].sendq == s.slots[i].recvq == []
    ensures SoundWith(cfg, SetSlot(s, i, OnNewConn(s.slots[i], s.nextConn))
                           .(owner := s.owner[s.nextConn := i], nextConn := s.nextConn + 1), extra)
  {
    var slot := OnNewConn(s.slots[i], s.nextConn);
    SameHolds(s.slots, i, slot);
    NewConnLinked(s, i, slot);
  }

  lemma CreateConnSound(cfg: Config, s: Sess, i: nat, ok: bool, extra: multiset<CallId>)
    requires i < |s.slots| && Common(cfg, s, extra) && OthersSound(cfg, s, i) && RingSound(cfg, s.slots[i])
    ensures SoundWith(cfg, CreateConn(s, i, ok), extra + QueueHolds(s.slots[i]))
  {
    var extra' := extra + QueueHolds(s.slots[i]);
    var conn := if ok then s.slots[i].conn else None;
    var t := SetSlot(s, i, Detached(s.slots[i]).(conn := conn));
    DetachSound(cfg, s, i, conn, extra);
    CreateConnDetaches(s, i, ok);
    if ok {
      NewConnSound(cfg, t, i, extra');
    } else {
      SessGoneSound(cfg, t, extra');
    }
  }

  lemma CreateConnDetaches(s: Sess, i: nat, ok: bool)
    requires i < |s.slots|
    ensures var t := SetSlot(s, i, Detached(s.slots[i]).(conn := if ok then s.slots[i].conn else None));
            CreateConn(s, i, ok)
            == if ok then SetSlot(t, i, OnNewConn(t.slots[i], t.nextConn))
                          .(owner := t.owner[t.nextConn := i], nextConn := t.nextConn + 1)
               else SessGone(t)
  {
  }

  /** The sends of send_calls. */
  ghost predicate Sending(cfg: Config, s: Sess, i: nat) {
    && i < |s.slots| && RingSound(cfg, s.slots[i])
    && s.slots[i].isConnected && s.slots[i].conn.Some? && s.slots[i].numSent <= |s.slots[i].pending|
    && s.slots[i].pending[..s.slots[i].numSent] == s.slots[i].recvq + s.slots[i].sendq
  }

  lemma {:induction false} SendAllSound(cfg: Config, s: Sess, i: nat, extra: multiset<CallId>)
    requires Sending(cfg, s, i) && Common(cfg, s, extra) && OthersSound(cfg, s, i)
    ensures SoundWith(cfg, SendAll(s, i), extra)
    decreases |s.slots[i].pending| - s.slots[i].numSent
  {
    if s.slots[i].numSent < |s.slots[i].pending| {
      CoreSendSound(cfg, s, i, extra);
      SendAllSound(cfg, CoreSend(s, i), i, extra);
    }
  }

  lemma CoreSendSound(cfg: Config, s: Sess, i: nat, extra: multiset<CallId>)
    requires Sending(cfg, s, i) && Common(cfg, s, extra) && OthersSound(cfg, s, i)
    requires s.slots[i].numSent < |s.slots[i].pending|
    ensures Sending(cfg, CoreSend(s, i), i) && Common(cfg, CoreSend(s, i), extra) && OthersSound(cfg, CoreSend(s, i), i)
  {
    var c := s.slots[i].pending[s.slots[i].numSent];
    SendSending(cfg, s, i);
    SendLinked(cfg, s, i, c);
    SendCounted(s, i, c, extra);
  }

  lemma SendSending(cfg: Config, s: Sess, i: nat)
    requires Sending(cfg, s, i) && s.slots[i].numSent < |s.slots[i].pending|
    ensures Sending(cfg, CoreSend(s, i), i)
  {
    var slot := s.slots[i];
    assert slot.pending[..slot.numSent + 1] == slot.pending[..slot.numSent] + [slot.pending[slot.numSent]];
  }

  lemma SendLinked(cfg: Config, s: Sess, i: nat, c: CallId)
    requires Sending(cfg, s, i) && Linked(s) && OthersSound(cfg, s, i) && PendingCalls(s.slots)[c] <= 1
    requires s.slots[i].numSent < |s.slots[i].pending| && c == s.slots[i].pending[s.slots[i].numSent]
    ensures Linked(CoreSend(s, i))
  {
    var t := CoreSend(s, i);
    forall k: nat | k < |t.slots| ensures SlotLinked(t.callConn, t.owner, k, t.slots[k]) {
      assert SlotLinked(s.callConn, s.owner, k, s.slots[k]);
      if k != i && (c in s.slots[k].recvq || c in s.slots[k].sendq) {
        QueuedIsPending(cfg, s.slots[k], c);
        PendingOnce(s, i, k, c);
      }
    }
  }

  lemma QueuedIsPending(cfg: Config, slot: Slot, c: CallId)
    requires SlotSound(cfg, slot) && (c in slot.recvq || c in slot.sendq)
    ensures c in slot.pending
  {
    assert c in slot.recvq + slot.sendq;
    assert c in slot.pending[..slot.numSent];
  }

  lemma SendCounted(s: Sess, i: nat, c: CallId, extra: multiset<CallId>)
    requires i < |s.slots| && s.slots[i].conn.Some? && s.slots[i].numSent < |s.slots[i].pending|
    requires c == s.slots[i].pending[s.slots[i].numSent]
    requires s.refs.count == s.holds + SlotsHold(s.slots) + extra && RefsSound(s.refs, s.created)
    ensures var t := CoreSend(s, i);
            && t.refs.count == t.holds + SlotsHold(t.slots) + extra && RefsSound(t.refs, t.created)
            && PendingCalls(t.slots) == PendingCalls(s.slots)
  {
    var slot := s.slots[i];
    var slot' := slot.(sendq := slot.sendq + [c], numSent := slot.numSent + 1);
    var t := CoreSend(s, i);
    assert t.slots == s.slots[i := slot'] && t.refs == s.refs.Inc(c) && t.holds == s.holds && t.created == s.created;
    OneMore(s.slots, i, slot', c);
    CountGrows(s.holds, SlotsHold(s.slots), SlotsHold(t.slots), SlotHolds(slot), multiset{c}, extra);
    PendingIsCounted(s, i, c, extra);
    IncSound(s.refs, c, s.created);
  }

  lemma PendingIsCounted(s: Sess, i: nat, c: CallId, extra: multiset<CallId>)
    requires i < |s.slots| && c in s.slots[i].pending
    requires s.refs.count == s.holds + SlotsHold(s.slots) + extra
    ensures c in s.refs.count
  {
    assert c in SlotHolds(s.slots[i]);
    HoldUpdateOf(s.slots, i, s.slots[i], c);
  }

  lemma OneMore(slots: seq<Slot>, i: nat, slot: Slot, c: CallId)
    requires i < |slots| && slot.pending == slots[i].pending && slot.recvq == slots[i].recvq
    requires slot.sendq == slots[i].sendq + [c]
    ensures SlotsHold(slots[i := slot]) + SlotHolds(slots[i]) == SlotsHold(slots) + (SlotHolds(slots[i]) + multiset{c})
    ensures PendingCalls(slots[i := slot]) == PendingCalls(slots)
  {
    assert SlotHolds(slot) == SlotHolds(slots[i]) + multiset{c} by {
      assert multiset(slot.sendq) == multiset(slots[i].sendq) + multiset{c};
    }
    HoldUpdate(slots, i, slot);
    SamePending(slots, i, slot);
  }

  lemma SamePending(slots: seq<Slot>, i: nat, slot: Slot)
    requires i < |slots| && slot.pending == slots[i].pending
    ensures PendingCalls(slots[i := slot]) == PendingCalls(slots)
  {
    var n, n' := PendingCalls(slots), PendingCalls(slots[i := slot]);
    forall x ensures n[x] == n'[x] {
      PendingUpdateOf(slots, i, slot, x);
    }
  }

  lemma IncSound(r: Refs, c: CallId, created: set<CallId>)
    requires RefsSound(r, created) && c in r.count
    ensures RefsSound(r.Inc(c), created)
  {
  }

  lemma CountGrows(holds: multiset<CallId>, a: multiset<CallId>, a': multiset<CallId>,
                   b: multiset<CallId>, d: multiset<CallId>, e: multiset<CallId>)
    requires a' + b == a + (b + d)
    ensures holds + a' + e == holds + a + e + d
  {
    var m, m' := holds + a' + e, holds + a + e + d;
    forall c ensures m[c] == m'[c] {
      assert (a' + b)[c] == (a + (b + d))[c];
    }
  }

  lemma EnqueueCounted(s: Sess, i: nat, c: CallId, extra: multiset<CallId>)
    requires i < |s.slots| && s.refs.count == s.holds + SlotsHold(s.slots) + extra
    ensures s.refs.Inc(c).count == s.holds + SlotsHold(s.slots[i := Enqueued(s.slots[i], c)]) + extra
  {
    var slot' := Enqueued(s.slots[i], c);
    OnePending(s.slots, i, slot', c);
    CountGrows(s.holds, SlotsHold(s.slots), SlotsHold(s.slots[i := slot']), SlotHolds(s.slots[i]), multiset{c}, extra);
  }

  lemma EnqueueOnce(slots: seq<Slot>, i: nat, c: CallId)
    requires i < |slots| && c !in PendingCalls(slots) && AtMostOnce(PendingCalls(slots))
    ensures AtMostOnce(PendingCalls(slots[i := Enqueued(slots[i], c)]))
  {
    PendingGrows(slots, i, Enqueued(slots[i], c), c);
  }

  lemma EnqueueSound(cfg: Config, s: Sess, i: nat, c: CallId, extra: multiset<CallId>)
    requires Common(cfg, s, extra) && i < |s.slots|
    requires c in s.refs.count && c !in PendingCalls(s.slots)
    ensures Common(cfg, SetSlot(s, i, Enqueued(s.slots[i], c)).(refs := s.refs.Inc(c)), extra)
  {
    EnqueueCounted(s, i, c, extra);
    EnqueueOnce(s.slots, i, c);
    IncSound(s.refs, c, s.created);
    EnqueueLinked(s, i, Enqueued(s.slots[i], c));
  }

  lemma EnqueueRing(cfg: Config, slot: Slot, c: CallId)
    requires RingSound(cfg, slot) && |slot.pending| < cfg.maxPiped
    ensures RingSound(cfg, Enqueued(slot, c))
  {
    assert slot.completed + (slot.pending + [c]) == slot.completed + slot.pending + [c];
  }

  lemma EnqueueLinked(s: Sess, i: nat, slot: Slot)
    requires Linked(s) && i < |s.slots|
    requires slot.conn == s.slots[i].conn && slot.recvq == s.slots[i].recvq && slot.sendq == s.slots[i].sendq
    ensures Linked(SetSlot(s, i, slot))
  {
    var t := SetSlot(s, i, slot);
    forall k: nat | k < |t.slots| ensures SlotLinked(t.callConn, t.owner, k, t.slots[k]) {
      assert SlotLinked(s.callConn, s.owner, k, s.slots[k]);
    }
  }

  lemma PendingGrows(slots: seq<Slot>, i: nat, slot: Slot, c: CallId)
    requires i < |slots| && slot.pending == slots[i].pending + [c]
    ensures PendingCalls(slots[i := slot]) == PendingCalls(slots) + multiset{c}
  {
    var m := multiset(slot.pending);
    assert m == multiset(slots[i].pending) + multiset{c};
    var n, n' := PendingCalls(slots) + multiset{c}, PendingCalls(slots[i := slot]);
    forall x ensures n[x] == n'[x] {
      PendingUpdateOf(slots, i, slot, x);
    }
  }

  lemma OnePending(slots: seq<Slot>, i: nat, slot: Slot, c: CallId)
    requires i < |slots| && slot.sendq == slots[i].sendq && slot.recvq == slots[i].recvq
    requires slot.pending == slots[i].pending + [c]
    ensures SlotsHold(slots[i := slot]) + SlotHolds(slots[i]) == SlotsHold(slots) + (SlotHolds(slots[i]) + multiset{c})
  {
    HoldUpdate(slots, i, slot);
    assert multiset(slot.pending) == multiset(slots[i].pending) + multiset{c};
    assert SlotHolds(slot) == SlotHolds(slots[i]) + multiset{c};
  }

  lemma SendCallsSound(cfg: Config, s: Sess, i: nat, ok: bool, extra: multiset<CallId>)
    requires i < |s.slots| && Common(cfg, s, extra) && OthersSound(cfg, s, i) && RingSound(cfg, s.slots[i])
    requires var slot := s.slots[i];
             && slot.numSent <= |slot.pending| && slot.pending[..slot.numSent] == slot.recvq + slot.sendq
             && (slot.isConnected ==> slot.conn.Some?) && (!slot.isConnected ==> slot.numSent == 0)
    ensures SoundWith(cfg, SendCalls(s, i, ok), extra)
  {
    var slot := s.slots[i];
    if slot.conn.None? {
      assert slot.recvq + slot.sendq == [];
      CreateConnSound(cfg, s, i, ok, extra);
      assert extra + QueueHolds(slot) == extra;
    } else if slot.isConnected {
      SendAllSound(cfg, s, i, extra);
    }
  }

  lemma IssueSound(cfg: Config, s: Sess, c: CallId, ok: bool, extra: multiset<CallId>)
    requires SoundWith(cfg, s, extra) && c in s.refs.count && c !in PendingCalls(s.slots)
    ensures SoundWith(cfg, IssueCall(cfg, s, c, ok), extra)
  {
    var i := FirstRoom(s.slots, cfg.maxPiped);
    if i < |s.slots| {
      var slot := s.slots[i];
      var t := SetSlot(s, i, Enqueued(slot, c)).(refs := s.refs.Inc(c));
      EnqueueSound(cfg, s, i, c, extra);
      EnqueueRing(cfg, slot, c);
      assert t.slots[i].pending[..slot.numSent] == slot.pending[..slot.numSent];
      SendCallsSound(cfg, t, i, ok, extra);
    }
  }

  lemma SentSlot(cfg: Config, slot: Slot)
    requires SlotSound(cfg, slot) && slot.sendq != []
    ensures var slot' := slot.(sendq := slot.sendq[1..], recvq := slot.recvq + [slot.sendq[0]]);
            SlotSound(cfg, slot') && SlotHolds(slot') == SlotHolds(slot)
  {
    var c := slot.sendq[0];
    assert slot.sendq == [c] + slot.sendq[1..];
    assert slot.recvq + slot.sendq == slot.recvq + [c] + slot.sendq[1..];
    assert multiset(slot.sendq) == multiset{c} + multiset(slot.sendq[1..]);
  }

  lemma SentSound(cfg: Config, s: Sess, i: nat)
    requires Sound(cfg, s) && i < |s.slots| && s.slots[i].sendq != []
    ensures Sound(cfg, Sent(s, i))
  {
    var slot := s.slots[i];
    SentSlot(cfg, slot);
    assert SlotLinked(s.callConn, s.owner, i, slot);
    ReplaceSlot(cfg, s, i, Sent(s, i).slots[i], multiset{}, multiset{});
  }

  /** call_done's assertion holds: the answered call heads its slot's ring. */
  lemma DoneHeadsRing(cfg: Config, s: Sess, i: nat)
    requires Sound(cfg, s) && i < |s.slots| && s.slots[i].recvq != []
    ensures var slot, c := s.slots[i], s.slots[i].recvq[0];
            && c in s.callConn && s.callConn[c] in s.owner && s.owner[s.callConn[c]] == i
            && slot.pending != [] && slot.numSent > 0 && slot.pending[0] == c
  {
    var slot := s.slots[i];
    assert SlotLinked(s.callConn, s.owner, i, slot);
    assert (slot.recvq + slot.sendq)[0] == slot.recvq[0];
    assert slot.pending[..slot.numSent][0] == slot.pending[0];
  }

  function AfterDone(slot: Slot): Slot
    requires slot.recvq != [] && slot.pending != [] && slot.numSent > 0
  {
    slot.(recvq := slot.recvq[1..], isSuccessful := true, pending := slot.pending[1..],
          numSent := slot.numSent - 1, completed := slot.completed + [slot.recvq[0]])
  }

  lemma TakeDoneIs(cfg: Config, s: Sess, i: nat)
    requires Sound(cfg, s) && i < |s.slots| && s.slots[i].recvq != []
    ensures s.slots[i].pending != [] && s.slots[i].numSent > 0
    ensures TakeDone(SetSlot(s, i, s.slots[i].(recvq := s.slots[i].recvq[1..])), s.slots[i].recvq[0])
            == SetSlot(s, i, AfterDone(s.slots[i]))
  {
    DoneHeadsRing(cfg, s, i);
  }

  lemma AfterDoneSound(cfg: Config, slot: Slot)
    requires SlotSound(cfg, slot) && slot.recvq != [] && slot.pending != [] && slot.numSent > 0
    requires slot.pending[0] == slot.recvq[0]
    ensures SlotSound(cfg, AfterDone(slot))
    ensures SlotHolds(slot) == SlotHolds(AfterDone(slot)) + multiset{slot.recvq[0], slot.recvq[0]}
    ensures multiset(slot.pending) == multiset(AfterDone(slot).pending) + multiset{slot.recvq[0]}
  {
    var c, slot' := slot.recvq[0], AfterDone(slot);
    assert slot.pending == [c] + slot'.pending && slot.recvq == [c] + slot'.recvq;
    assert slot'.pending[..slot'.numSent] == slot.pending[..slot.numSent][1..] == slot'.recvq + slot'.sendq;
    assert slot.completed + slot.pending == slot'.completed + slot'.pending;
  }

  lemma DoneTakenSound(cfg: Config, s: Sess, i: nat)
    requires Sound(cfg, s) && i < |s.slots| && s.slots[i].recvq != []
    ensures s.slots[i].pending != [] && s.slots[i].numSent > 0
    ensures var c := s.slots[i].recvq[0];
            SoundWith(cfg, SetSlot(s, i, AfterDone(s.slots[i])), multiset{c, c})
  {
    var slot := s.slots[i];
    var c := slot.recvq[0];
    DoneHeadsRing(cfg, s, i);
    AfterDoneSound(cfg, slot);
    assert SlotLinked(s.callConn, s.owner, i, slot);
    ReplaceSlot(cfg, s, i, AfterDone(slot), multiset{}, multiset{c, c});
  }

  /** An answered call can be issued again: it pends nowhere, and is still held. */
  lemma DoneIsFree(cfg: Config, s: Sess, i: nat)
    requires Sound(cfg, s) && i < |s.slots| && s.slots[i].recvq != []
    ensures s.slots[i].pending != [] && s.slots[i].numSent > 0
    ensures var c := s.slots[i].recvq[0];
            c in s.refs.count && c !in PendingCalls(s.slots[i := AfterDone(s.slots[i])])
  {
    var slot := s.slots[i];
    DoneHeadsRing(cfg, s, i);
    AfterDoneSound(cfg, slot);
    PendingUpdateOf(s.slots, i, AfterDone(slot), slot.recvq[0]);
    PendingIsCounted(s, i, slot.recvq[0], multiset{});
  }

  lemma WithoutTwo(a: multiset<CallId>, c: CallId)
    ensures a + multiset{c, c} - multiset{c} - multiset{c} == a
    ensures c in a + multiset{c, c} && c in a + multiset{c, c} - multiset{c}
  {
  }

  lemma DropTwo(cfg: Config, s: Sess, c: CallId)
    requires SoundWith(cfg, s, multiset{c, c})
    ensures Sound(cfg, s.(refs := s.refs.Dec(c).Dec(c)))
  {
    var count := s.holds + SlotsHold(s.slots);
    WithoutTwo(count, c);
    DecSound(s.refs, c, s.created);
    DecSound(s.refs.Dec(c), c, s.created);
    assert s.refs.Dec(c).Dec(c).count == count + multiset{};
  }

  lemma DoneSound(cfg: Config, s: Sess, i: nat, status: nat, ok: bool)
    requires Sound(cfg, s) && i < |s.slots| && s.slots[i].recvq != []
    ensures Sound(cfg, Done(cfg, s, i, status, ok))
  {
    var c := s.slots[i].recvq[0];
    TakeDoneIs(cfg, s, i);
    DoneTakenSound(cfg, s, i);
    DoneIsFree(cfg, s, i);
    var t := SetSlot(s, i, AfterDone(s.slots[i]));
    var u := if cfg.failureStatus == 0 || status != cfg.failureStatus then t
             else if cfg.retryOnFailure then IssueCall(cfg, t, c, ok)
             else SessGone(t);
    if cfg.failureStatus != 0 && status == cfg.failureStatus {
      if cfg.retryOnFailure {
        IssueSound(cfg, t, c, ok, multiset{c, c});
      } else {
        SessGoneSound(cfg, t, multiset{c, c});
      }
    }
    DropTwo(cfg, u, c);
  }

  lemma WithoutFirst(rest: multiset<CallId>, a: multiset<CallId>, b: multiset<CallId>)
    ensures a <= rest + (a + b) && rest + (a + b) - a == rest + b
  {
  }

  lemma DecBoth(r: Refs, a: seq<CallId>, b: seq<CallId>, created: set<CallId>, rest: multiset<CallId>)
    requires RefsSound(r, created) && r.count == rest + (multiset(a) + multiset(b))
    ensures r.DecAll(a).DecAll(b).count == rest && RefsSound(r.DecAll(a).DecAll(b), created)
  {
    WithoutFirst(rest, multiset(a), multiset(b));
    DecAllSound(r, a, created);
    assert r.DecAll(a).count == rest + multiset(b);
    DecAllSound(r.DecAll(a), b, created);
  }

  lemma DropQueues(cfg: Config, s: Sess, slot: Slot)
    requires SoundWith(cfg, s, multiset{} + QueueHolds(slot))
    ensures Sound(cfg, s.(refs := s.refs.DecAll(slot.sendq).DecAll(slot.recvq)))
  {
    var rest := s.holds + SlotsHold(s.slots);
    assert multiset{} + QueueHolds(slot) == multiset(slot.sendq) + multiset(slot.recvq);
    DecBoth(s.refs, slot.sendq, slot.recvq, s.created, rest);
    assert rest == rest + multiset{};
  }

  lemma FailedSound(cfg: Config, s: Sess, i: nat, ok: bool)
    requires Sound(cfg, s) && i < |s.slots|
    ensures Sound(cfg, Failed(cfg, s, i, ok))
  {
    var slot := s.slots[i];
    if slot.isSuccessful || cfg.retryOnFailure {
      CreateConnSound(cfg, s, i, ok, multiset{});
      DropQueues(cfg, CreateConn(s, i, ok), slot);
    } else {
      SessGoneSound(cfg, s, multiset{});
    }
  }

  lemma ConnectedSound(cfg: Config, s: Sess, i: nat)
    requires Sound(cfg, s) && i < |s.slots| && s.slots[i].conn.Some?
    ensures Sound(cfg, SendAll(SetSlot(s, i, s.slots[i].(isConnected := true)), i))
  {
    var slot := s.slots[i].(isConnected := true);
    assert SlotLinked(s.callConn, s.owner, i, s.slots[i]);
    ReplaceSlot(cfg, s, i, slot, multiset{}, multiset{});
    SendAllSound(cfg, SetSlot(s, i, slot), i, multiset{});
  }

  lemma NewCallSound(cfg: Config, s: Sess, c: CallId)
    requires Sound(cfg, s) && c !in s.created
    ensures Sound(cfg, s.(created := s.created + {c}, holds := s.holds + multiset{c}, refs := s.refs.Inc(c)))
  {
    var t := s.(created := s.created + {c}, holds := s.holds + multiset{c}, refs := s.refs.Inc(c));
    assert t.refs.count == t.holds + SlotsHold(t.slots) + multiset{};
  }

  lemma ReleaseSound(cfg: Config, s: Sess, c: CallId)
    requires Sound(cfg, s) && c in s.holds
    ensures Sound(cfg, s.(holds := s.holds - multiset{c}, refs := s.refs.Dec(c)))
  {
    var t := s.(holds := s.holds - multiset{c}, refs := s.refs.Dec(c));
    DecSound(s.refs, c, s.created);
    assert t.refs.count == t.holds + SlotsHold(t.slots) + multiset{};
  }

  /** Every event keeps the invariant. */
  lemma NextSound(cfg: Config, s: Sess, e: Event)
    requires Sound(cfg, s) && Enabled(s, e)
    ensures Sound(cfg, Next(cfg, s, e))
  {
    match e
    case NewCall(c) => NewCallSound(cfg, s, c);
    case Issue(c, ok) =>
      NotPending(s.slots, c);
      IssueSound(cfg, s, c, ok, multiset{});
    case Release(c) => ReleaseSound(cfg, s, c);
    case Connected(i) => ConnectedSound(cfg, s, i);
    case RequestSent(i) => SentSound(cfg, s, i);
    case ReplyDone(i, status, ok) => DoneSound(cfg, s, i, status, ok);
    case ConnFailed(i, ok) => FailedSound(cfg, s, i, ok);
    case ConnTimeout(i) => SessGoneSound(cfg, s, multiset{});
    case End => SessGoneSound(cfg, s, multiset{});
  }

  // ---- whole runs ----

  ghost predicate CanRun(cfg: Config, s: Sess, events: seq<Event>)
    decreases |events|
  {
    events == [] || (Enabled(s, events[0]) && CanRun(cfg, Next(cfg, s, events[0]), events[1..]))
  }

  ghost function Run(cfg: Config, s: Sess, events: seq<Event>): Sess
    requires CanRun(cfg, s, events)
    decreases |events|
  {
    if events == [] then s else Run(cfg, Next(cfg, s, events[0]), events[1..])
  }

  /** A session that has failed or ended has nothing left in its slots. */
  ghost predicate GoneEmpty(s: Sess) {
    s.gone ==> forall i :: 0 <= i < |s.slots| ==> s.slots[i] == EMPTY_SLOT
  }

  /** The record of what was issued and completed on each slot is only added to,
      until the session is gone. */
  ghost predicate Continues(s: Sess, t: Sess) {
    !t.gone ==> |s.slots| == |t.slots| && forall i :: 0 <= i < |s.slots| ==>
      s.slots[i].issued <= t.slots[i].issued && s.slots[i].completed <= t.slots[i].completed
  }

  lemma {:induction false} SendAllKeeps(s: Sess, i: nat)
    requires i < |s.slots| && s.slots[i].conn.Some?
    ensures var t := SendAll(s, i);
            && t.gone == s.gone && |t.slots| == |s.slots| && t.fate == s.fate
            && t.slots == s.slots[i := t.slots[i]]
            && t.slots[i] == s.slots[i].(sendq := t.slots[i].sendq, numSent := t.slots[i].numSent)
    decreases |s.slots[i].pending| - s.slots[i].numSent
  {
    if s.slots[i].numSent < |s.slots[i].pending| {
      SendAllKeeps(CoreSend(s, i), i);
    }
  }

  lemma SendCallsKeeps(s: Sess, i: nat, ok: bool)
    requires i < |s.slots| && !s.gone
    ensures Continues(s, SendCalls(s, i, ok)) && GoneEmpty(SendCalls(s, i, ok)) && SendCalls(s, i, ok).fate == s.fate
  {
    if s.slots[i].conn.Some? && s.slots[i].isConnected {
      SendAllKeeps(s, i);
    }
  }

  lemma IssueKeeps(cfg: Config, s: Sess, c: CallId, ok: bool)
    requires !s.gone
    ensures Continues(s, IssueCall(cfg, s, c, ok)) && GoneEmpty(IssueCall(cfg, s, c, ok))
    ensures !s.fate.AssertionFailed? ==> !IssueCall(cfg, s, c, ok).fate.AssertionFailed?
  {
    var i := FirstRoom(s.slots, cfg.maxPiped);
    if i < |s.slots| {
      SendCallsKeeps(SetSlot(s, i, Enqueued(s.slots[i], c)).(refs := s.refs.Inc(c)), i, ok);
    }
  }

  lemma ConnectedKeeps(s: Sess, i: nat)
    requires !s.gone && i < |s.slots| && s.slots[i].conn.Some?
    ensures var t := SendAll(SetSlot(s, i, s.slots[i].(isConnected := true)), i);
            Continues(s, t) && GoneEmpty(t)
  {
    SendAllKeeps(SetSlot(s, i, s.slots[i].(isConnected := true)), i);
  }

  lemma FailedKeeps(cfg: Config, s: Sess, i: nat, ok: bool)
    requires !s.gone && i < |s.slots|
    ensures Continues(s, Failed(cfg, s, i, ok)) && GoneEmpty(Failed(cfg, s, i, ok))
  {
  }

  lemma AfterDoneKeeps(s: Sess, i: nat)
    requires !s.gone && i < |s.slots|
    requires s.slots[i].recvq != [] && s.slots[i].pending != [] && s.slots[i].numSent > 0
    ensures Continues(s, SetSlot(s, i, AfterDone(s.slots[i])))
  {
  }

  lemma StatusKeeps(cfg: Config, s: Sess, c: CallId, status: nat, ok: bool)
    requires !s.gone
    ensures Continues(s, AfterStatus(cfg, s, c, status, ok)) && GoneEmpty(AfterStatus(cfg, s, c, status, ok))
    ensures !s.fate.AssertionFailed? ==> !AfterStatus(cfg, s, c, status, ok).fate.AssertionFailed?
  {
    if cfg.retryOnFailure {
      IssueKeeps(cfg, s, c, ok);
    }
  }

  /** What recv_done comes to when call_done's assertion holds. */
  lemma DoneIs(cfg: Config, s: Sess, i: nat, status: nat, ok: bool)
    requires Sound(cfg, s) && !s.gone && i < |s.slots| && s.slots[i].recvq != []
    ensures s.slots[i].pending != [] && s.slots[i].numSent > 0
    ensures var c := s.slots[i].recvq[0];
            var t := AfterStatus(cfg, SetSlot(s, i, AfterDone(s.slots[i])), c, status, ok);
            Done(cfg, s, i, status, ok) == t.(refs := t.refs.Dec(c).Dec(c))
  {
    TakeDoneIs(cfg, s, i);
    StatusKeeps(cfg, SetSlot(s, i, AfterDone(s.slots[i])), s.slots[i].recvq[0], status, ok);
  }

  lemma DoneKeeps(cfg: Config, s: Sess, i: nat, status: nat, ok: bool)
    requires Sound(cfg, s) && !s.gone && i < |s.slots| && s.slots[i].recvq != []
    ensures Continues(s, Done(cfg, s, i, status, ok)) && GoneEmpty(Done(cfg, s, i, status, ok))
  {
    DoneIs(cfg, s, i, status, ok);
    AfterDoneKeeps(s, i);
    StatusKeeps(cfg, SetSlot(s, i, AfterDone(s.slots[i])), s.slots[i].recvq[0], status, ok);
  }

  lemma NextKeeps(cfg: Config, s: Sess, e: Event)
    requires Sound(cfg, s) && Enabled(s, e) && GoneEmpty(s)
    ensures Continues(s, Next(cfg, s, e)) && GoneEmpty(Next(cfg, s, e))
  {
    match e
    case NewCall(_) =>
    case Issue(c, ok) => IssueKeeps(cfg, s, c, ok);
    case Release(_) =>
    case Connected(i) => ConnectedKeeps(s, i);
    case RequestSent(_) =>
    case ReplyDone(i, status, ok) => DoneKeeps(cfg, s, i, status, ok);
    case ConnFailed(i, ok) => FailedKeeps(cfg, s, i, ok);
    case ConnTimeout(_) =>
    case End =>
  }

  lemma FreshSound(cfg: Config)
    requires cfg.Valid()
    ensures Sound(cfg, Fresh(cfg)) && GoneEmpty(Fresh(cfg))
  {
    NothingHeld(EmptySlots(cfg.maxConns));
  }

  /** The invariant holds after every run, whatever connections failed in it; call_done's
      assertion in particular never does not. */
  lemma {:induction false} RunSound(cfg: Config, s: Sess, events: seq<Event>)
    requires Sound(cfg, s) && GoneEmpty(s) && CanRun(cfg, s, events)
    ensures var t := Run(cfg, s, events);
            Sound(cfg, t) && GoneEmpty(t) && !t.fate.AssertionFailed? && !t.refs.underflow
    decreases |events|
  {
    if events != [] {
      NextSound(cfg, s, events[0]);
      NextKeeps(cfg, s, events[0]);
      RunSound(cfg, Next(cfg, s, events[0]), events[1..]);
    }
  }

  /** Over a run from a fresh session: on every slot the calls complete in the order
      they were issued, none is skipped and none is lost, and the live connection's
      queues hold the calls that were sent, oldest first. */
  lemma RunIsFifo(cfg: Config, events: seq<Event>, i: nat)
    requires cfg.Valid() && CanRun(cfg, Fresh(cfg), events)
    requires i < |Run(cfg, Fresh(cfg), events).slots|
    ensures var slot := Run(cfg, Fresh(cfg), events).slots[i];
            && slot.issued == slot.completed + slot.pending
            && slot.recvq + slot.sendq == slot.pending[..if slot.isConnected then |slot.pending| else 0]
            && |slot.pending| <= cfg.maxPiped <= 32
  {
    FreshSound(cfg);
    RunSound(cfg, Fresh(cfg), events);
  }

  /** A call that is pending or queued is referenced, so it has not been destroyed,
      and no call is destroyed twice. */
  lemma PendingAreAlive(cfg: Config, s: Sess, i: nat, c: CallId)
    requires Sound(cfg, s) && i < |s.slots|
    requires c in s.slots[i].pending || c in s.slots[i].sendq || c in s.slots[i].recvq
    ensures s.refs.count[c] > 0 && c !in s.refs.destroyed
  {
    if c !in s.slots[i].pending {
      QueuedIsPending(cfg, s.slots[i], c);
    }
    PendingIsCounted(s, i, c, multiset{});
    assert multiset(s.refs.destroyed)[c] == 0;
  }

  /** Once the session is gone and the creators have let go, every call that was ever
      made has been destroyed, once. */
  lemma NothingLeaks(cfg: Config, s: Sess, c: CallId)
    requires Sound(cfg, s) && GoneEmpty(s) && s.gone && s.holds == multiset{} && c in s.created
    ensures multiset(s.refs.destroyed)[c] == 1
  {
    NothingHeld(s.slots);
  }

  lemma {:induction false} SendAllSends(s: Sess, i: nat)
    requires i < |s.slots| && s.slots[i].conn.Some? && s.slots[i].numSent <= |s.slots[i].pending|
    ensures var slot := s.slots[i];
            SendAll(s, i).slots[i].sendq == slot.sendq + slot.pending[slot.numSent..]
    decreases |s.slots[i].pending| - s.slots[i].numSent
  {
    var slot := s.slots[i];
    if slot.numSent < |slot.pending| {
      SendAllSends(CoreSend(s, i), i);
      assert slot.pending[slot.numSent..] == [slot.pending[slot.numSent]] + slot.pending[slot.numSent + 1..];
    } else {
      assert slot.sendq + [] == slot.sendq;
    }
  }

  /** When a connection fails and the next one gets connected, every pending call is
      sent again, in order, and nothing else has happened to the slot. */
  lemma ReconnectResendsAll(cfg: Config, s: Sess, i: nat)
    requires Sound(cfg, s) && s.fate.Running? && i < |s.slots| && s.slots[i].conn.Some?
    requires s.slots[i].isSuccessful || cfg.retryOnFailure
    ensures var t := Next(cfg, s, ConnFailed(i, true));
            && Enabled(t, Connected(i))
            && var u := Next(cfg, t, Connected(i)).slots[i];
            && u.pending == u.sendq == s.slots[i].pending && u.recvq == []
            && u.issued == s.slots[i].issued && u.completed == s.slots[i].completed
            && u.conn != s.slots[i].conn
  {
    var t := Next(cfg, s, ConnFailed(i, true));
    var v := SetSlot(t, i, t.slots[i].(isConnected := true));
    assert SlotLinked(s.callConn, s.owner, i, s.slots[i]);
    SendAllKeeps(v, i);
    SendAllSends(v, i);
  }
}
