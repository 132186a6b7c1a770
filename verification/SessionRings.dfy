/** The session code: per connection slot a ring buffer of pending calls, and the
    event handlers that keep it in step with the connection's queues.  Every handler
    is proved to perform the protocol's step, reference counts included. */
module SessionRings {
  import opened Shared
  import opened SessionProtocol

  /** n entries of a ring, from rd on. */
  ghost function RingFrom(ring: seq<CallId>, rd: nat, n: nat): (p: seq<CallId>)
    requires |ring| == MAX_PIPED && rd < MAX_PIPED
    ensures |p| == n
    decreases n
  {
    if n == 0 then [] else [ring[rd]] + RingFrom(ring, RingNext(rd), n - 1)
  }

  function RingNext(k: nat): (next: nat)
    requires k < MAX_PIPED
    ensures next < MAX_PIPED
  {
    (k + 1) % 32
  }

  /** Where n steps round the ring lead. */
  function RingSkip(rd: nat, n: nat): (k: nat)
    requires rd < MAX_PIPED
    ensures k < MAX_PIPED
  {
    (rd + n) % 32
  }

  lemma SkipNext(rd: nat, n: nat)
    requires rd < MAX_PIPED && n > 0
    ensures RingSkip(rd, n) == RingSkip(RingNext(rd), n - 1)
  {
  }

  lemma NextSkip(rd: nat, n: nat)
    requires rd < MAX_PIPED
    ensures RingNext(RingSkip(rd, n)) == RingSkip(rd, n + 1)
  {
  }

  lemma {:induction false} RingAt(ring: seq<CallId>, rd: nat, n: nat, k: nat)
    requires |ring| == MAX_PIPED && rd < MAX_PIPED && k < n
    ensures RingFrom(ring, rd, n)[k] == ring[RingSkip(rd, k)]
    decreases k
  {
    if k == 0 {
      SkipNone(rd);
    } else {
      var next := RingNext(rd);
      SkipNext(rd, k);
      RingAt(ring, next, n - 1, k - 1);
      RingTail(ring, rd, n, k);
    }
  }

  lemma SkipNone(rd: nat)
    requires rd < MAX_PIPED
    ensures RingSkip(rd, 0) == rd
  {
  }

  lemma RingTail(ring: seq<CallId>, rd: nat, n: nat, k: nat)
    requires |ring| == MAX_PIPED && rd < MAX_PIPED && 0 < k < n
    ensures RingFrom(ring, rd, n)[k] == RingFrom(ring, RingNext(rd), n - 1)[k - 1]
  {
  }

  /** Writing behind the last entry appends to it, as long as the ring is not full. */
  lemma {:induction false} RingAppend(ring: seq<CallId>, rd: nat, n: nat, c: CallId)
    requires |ring| == MAX_PIPED && rd < MAX_PIPED && n < MAX_PIPED
    ensures RingFrom(ring[RingSkip(rd, n) := c], rd, n + 1) == RingFrom(ring, rd, n) + [c]
    decreases n
  {
    var at := RingSkip(rd, n);
    var ring' := ring[at := c];
    RingUnfold(ring', rd, n + 1);
    if n == 0 {
      SkipNone(rd);
      assert RingFrom(ring', RingNext(rd), 0) == [] && RingFrom(ring, rd, 0) == [];
    } else {
      var next := RingNext(rd);
      SkipNext(rd, n);
      SkipAway(rd, n);
      RingAppend(ring, next, n - 1, c);
      RingUnfold(ring, rd, n);
      assert [ring[rd]] + (RingFrom(ring, next, n - 1) + [c]) == [ring[rd]] + RingFrom(ring, next, n - 1) + [c];
    }
  }

  lemma RingUnfold(ring: seq<CallId>, rd: nat, n: nat)
    requires |ring| == MAX_PIPED && rd < MAX_PIPED && n > 0
    ensures RingFrom(ring, rd, n) == [ring[rd]] + RingFrom(ring, RingNext(rd), n - 1)
  {
  }

  lemma SkipAway(rd: nat, n: nat)
    requires rd < MAX_PIPED && 0 < n < MAX_PIPED
    ensures RingSkip(rd, n) != rd
  {
  }

  /** Counters as a multiset. */
  ghost function Bag(counts: map<CallId, nat>): multiset<CallId>
    decreases counts.Keys
  {
    if counts == map[] then multiset{}
    else
      var c :| c in counts;
      Bag(counts - {c})[c := counts[c]]
  }

  lemma {:induction false} BagCounts(counts: map<CallId, nat>)
    ensures forall c :: Bag(counts)[c] == if c in counts then counts[c] else 0
    decreases counts.Keys
  {
    if counts != map[] {
      var c :| c in counts && Bag(counts) == Bag(counts - {c})[c := counts[c]];
      BagCounts(counts - {c});
    }
  }

  lemma BagSet(counts: map<CallId, nat>, c: CallId, n: nat)
    ensures Bag(counts[c := n]) == Bag(counts)[c := n]
    ensures Bag(counts)[c] == if c in counts then counts[c] else 0
  {
    BagCounts(counts);
    BagCounts(counts[c := n]);
  }

  lemma CountedUp(counts: map<CallId, nat>, c: CallId, r: Refs)
    requires r.count == Bag(counts)
    ensures r.Inc(c) == r.(count := Bag(counts[c := if c in counts then counts[c] + 1 else 1]))
  {
    BagSet(counts, c, if c in counts then counts[c] + 1 else 1);
  }

  lemma CountedDown(counts: map<CallId, nat>, c: CallId, r: Refs)
    requires r.count == Bag(counts) && c in counts && counts[c] > 0
    ensures r.Dec(c) == Refs(Bag(counts[c := counts[c] - 1]), if counts[c] == 1 then r.destroyed + [c] else r.destroyed, r.underflow)
  {
    BagSet(counts, c, counts[c] - 1);
  }

  lemma CountedOut(counts: map<CallId, nat>, c: CallId, r: Refs)
    requires r.count == Bag(counts) && (c !in counts || counts[c] == 0)
    ensures r.Dec(c) == r.(underflow := true)
  {
    BagCounts(counts);
  }

  /** A struct Conn_Info, with the send and receive queue of its connection. */
  class ConnInfo {
    var conn: Option<ConnId>
    var isConnected: bool
    var isSuccessful: bool
    var numPending: nat
    var numSent: nat
    var rd: nat
    var wr: nat
    const call: array<CallId>
    var sendq: seq<CallId>
    var recvq: seq<CallId>
    ghost var issued: seq<CallId>
    ghost var completed: seq<CallId>

    ghost predicate Valid()
      reads this
    {
      && call.Length == MAX_PIPED && rd < MAX_PIPED && wr < MAX_PIPED
      && numSent <= numPending <= MAX_PIPED && wr == RingSkip(rd, numPending)
    }

    /** The calls in the ring, oldest first. */
    ghost function Pending(): (p: seq<CallId>)
      reads this, call
      requires Valid()
      ensures |p| == numPending
    {
      RingFrom(call[..], rd, numPending)
    }

    ghost function View(): Slot
      reads this, call
      requires Valid()
    {
      Slot(conn, isConnected, isSuccessful, Pending(), numSent, sendq, recvq, issued, completed)
    }

    constructor ()
      ensures Valid() && View() == EMPTY_SLOT && fresh(call)
    {
      conn := None;
      isConnected, isSuccessful := false, false;
      numPending, numSent, rd, wr := 0, 0, 0, 0;
      call := new CallId[MAX_PIPED];
      sendq, recvq := [], [];
      issued, completed := [], [];
    }

    /** The insertion of session_issue_call. */
    method Insert(c: CallId)
      requires Valid() && numPending < MAX_PIPED
      modifies this, call
      ensures Valid() && View() == Enqueued(old(View()), c)
    {
      RingAppend(call[..], rd, numPending, c);
      NextSkip(rd, numPending);
      numPending := numPending + 1;
      call[wr] := c;
      assert call[..] == old(call[..])[wr := c];
      wr := RingNext(wr);
      issued := issued + [c];
    }

    /** The removal in call_done; the entry itself is cleared in the original. */
    method RemoveFirst()
      requires Valid() && numSent > 0
      modifies this
      ensures Valid()
      ensures View() == old(View()).(isSuccessful := true, pending := old(Pending())[1..], numSent := old(numSent) - 1,
                                     completed := old(completed) + [old(Pending())[0]])
    {
      ghost var was := Pending();
      SkipNext(rd, numPending);
      isSuccessful := true;
      rd := RingNext(rd);
      numPending := numPending - 1;
      numSent := numSent - 1;
      completed := completed + [was[0]];
      assert was == [was[0]] + Pending();
    }

    /** The slot's memory is given back with the session. */
    method Clear()
      requires Valid()
      modifies this
      ensures Valid() && View() == EMPTY_SLOT
    {
      conn := None;
      isConnected, isSuccessful := false, false;
      numPending, numSent, rd, wr := 0, 0, 0, 0;
      sendq, recvq := [], [];
      issued, completed := [], [];
      assert Pending() == [];
    }
  }

  /** A Sess with the session module's private data, and the parts of calls and
      connections the module and the core look at. */
  class Session {
    const cfg: Config
    const infos: seq<ConnInfo>
    /** ref_count of every call. */
    var refCount: map<CallId, nat>
    /** Whether the assertion of object_dec_ref has failed. */
    var underflow: bool
    ghost var destroyed: seq<CallId>
    var callConn: map<CallId, ConnId>
    var owner: map<ConnId, nat>
    var nextConn: ConnId
    ghost var created: set<CallId>
    ghost var holds: multiset<CallId>
    var gone: bool
    var fate: Fate

    ghost const repr: set<object>

    ghost predicate Valid()
      reads this, repr
    {
      && cfg.Valid() && |infos| == cfg.maxConns
      && (forall i :: 0 <= i < |infos| ==> infos[i] in repr && infos[i].call in repr && infos[i].Valid())
      && (forall i, j :: 0 <= i < j < |infos| ==> infos[i] != infos[j] && infos[i].call != infos[j].call)
    }

    ghost function Slots(): (s: seq<Slot>)
      reads this, repr
      requires Valid()
      ensures |s| == |infos| && forall i :: 0 <= i < |infos| ==> s[i] == infos[i].View()
    {
      seq(|infos|, i requires 0 <= i < |infos| && Valid() reads this, repr => infos[i].View())
    }

    ghost function Counts(): Refs
      reads this
    {
      Refs(Bag(refCount), destroyed, underflow)
    }

    ghost function View(): Sess
      reads this, repr
      requires Valid()
    {
      Sess(Slots(), Counts(), callConn, owner, nextConn, created, holds, gone, fate)
    }

    constructor (cfg: Config)
      requires cfg.Valid()
      ensures Valid() && fresh(repr) && this.cfg == cfg && View() == Fresh(cfg)
    {
      var made: seq<ConnInfo> := [];
      ghost var objects: set<object> := {};
      for k := 0 to cfg.maxConns
        invariant |made| == k
        invariant fresh(objects)
        invariant forall i :: 0 <= i < k ==> made[i] in objects && made[i].call in objects
        invariant forall i :: 0 <= i < k ==> made[i].Valid() && made[i].View() == EMPTY_SLOT
        invariant forall i, j :: 0 <= i < j < k ==> made[i] != made[j] && made[i].call != made[j].call
      {
        var info := new ConnInfo();
        made := made + [info];
        objects := objects + {info, info.call};
      }
      this.cfg := cfg;
      infos := made;
      refCount, underflow, destroyed := map[], false, [];
      callConn, owner, nextConn := map[], map[], 0;
      created, holds := {}, multiset{};
      gone, fate := false, Running;
      repr := objects;
      new;
      assert Slots() == EmptySlots(cfg.maxConns);
    }

    /** Only the i-th slot has changed. */
    twostate lemma OnlySlot(i: nat)
      requires old(Valid()) && Valid() && i < |infos|
      requires forall k :: 0 <= k < |infos| && k != i ==> unchanged(infos[k]) && unchanged(infos[k].call)
      ensures Slots() == old(Slots())[i := infos[i].View()]
    {
      forall k | 0 <= k < |infos| && k != i ensures infos[k].View() == old(infos[k].View()) {
        assert infos[k].Pending() == old(infos[k].Pending());
      }
    }

    method CountUp(c: CallId)
      modifies this`refCount
      ensures Counts() == old(Counts()).Inc(c)
    {
      CountedUp(refCount, c, Counts());
      refCount := refCount[c := if c in refCount then refCount[c] + 1 else 1];
    }

    /** object_dec_ref. */
    method CountDown(c: CallId)
      modifies this`refCount, this`underflow, this`destroyed
      ensures Counts() == old(Counts()).Dec(c)
    {
      if c !in refCount || refCount[c] == 0 {
        CountedOut(refCount, c, Counts());
        underflow := true;
      } else {
        CountedDown(refCount, c, Counts());
        refCount := refCount[c := refCount[c] - 1];
        if refCount[c] == 0 {
          destroyed := destroyed + [c];
        }
      }
    }

    method IncRef(c: CallId)
      requires Valid()
      modifies this`refCount
      ensures Valid() && View() == old(View()).(refs := old(Counts()).Inc(c))
    {
      CountUp(c);
    }

    method DecRef(c: CallId)
      requires Valid()
      modifies this`refCount, this`underflow, this`destroyed
      ensures Counts() == old(Counts()).Dec(c)
      ensures Valid() && View() == old(View()).(refs := old(Counts()).Dec(c))
    {
      CountDown(c);
    }

    method DecRefs(calls: seq<CallId>)
      requires Valid()
      modifies this`refCount, this`underflow, this`destroyed
      ensures Valid() && View() == old(View()).(refs := old(Counts()).DecAll(calls))
    {
      var k := 0;
      while k < |calls|
        invariant 0 <= k <= |calls| && Valid()
        invariant View() == old(View()).(refs := Counts())
        invariant Counts().DecAll(calls[k..]) == old(Counts()).DecAll(calls)
      {
        DecAllCons(Counts(), calls, k);
        DecRef(calls[k]);
        k := k + 1;
      }
    }

    /** The call goes to the end of the send queue of its connection. */
    method Append(i: nat, c: CallId)
      requires Valid() && i < |infos| && infos[i].conn.Some? && infos[i].numSent < infos[i].numPending
      modifies this`callConn, infos[i]
      ensures Valid()
      ensures var slot := old(View()).slots[i];
              View() == SetSlot(old(View()), i, slot.(sendq := slot.sendq + [c], numSent := slot.numSent + 1))
                        .(callConn := old(callConn)[c := slot.conn.value])
    {
      var ci := infos[i];
      callConn := callConn[c := ci.conn.value];
      ci.sendq := ci.sendq + [c];
      ci.numSent := ci.numSent + 1;
      KeepsRing(i);
      OnlySlot(i);
    }

    method CoreSendNext(i: nat)
      requires Valid() && i < |infos| && infos[i].conn.Some? && infos[i].numSent < infos[i].numPending
      modifies this, infos[i]
      ensures Valid() && View() == CoreSend(old(View()), i)
    {
      var ci := infos[i];
      var c := ci.call[RingSkip(ci.rd, ci.numSent)];
      RingAt(ci.call[..], ci.rd, ci.numPending, ci.numSent);
      IncRef(c);
      Append(i, c);
    }

    /** The ring's references, given up from rd on. */
    method DropRing(i: nat)
      requires Valid() && i < |infos|
      modifies this`refCount, this`underflow, this`destroyed
      ensures Counts() == old(Counts()).DecAll(infos[i].Pending())
    {
      var ci := infos[i];
      ghost var pending := ci.Pending();
      var rd := ci.rd;
      for j := 0 to ci.numPending
        invariant rd == RingSkip(ci.rd, j)
        invariant Counts().DecAll(pending[j..]) == old(Counts()).DecAll(pending)
      {
        RingAt(ci.call[..], ci.rd, ci.numPending, j);
        DecAllCons(Counts(), pending, j);
        NextSkip(ci.rd, j);
        CountDown(ci.call[rd]);
        rd := RingNext(rd);
      }
    }

    /** One connection closed and its ring given up. */
    method DropInfo(i: nat)
      requires Valid() && i < |infos|
      modifies this`refCount, this`underflow, this`destroyed, infos[i]
      ensures Valid() && View() == DropSlot(old(View()), i)
    {
      DecRefs(infos[i].sendq);
      DecRefs(infos[i].recvq);
      DropRing(i);
      infos[i].Clear();
      OnlySlot(i);
    }

    method DropNextInfo(i: nat, ghost goal: Sess)
      requires Valid() && i < |infos| && DropFrom(View(), i) == goal
      modifies this`refCount, this`underflow, this`destroyed, infos[i]
      ensures Valid() && DropFrom(View(), i + 1) == goal
    {
      DropFromStep(View(), i);
      DropInfo(i);
    }

    method DropAllInfos()
      requires Valid()
      modifies this`refCount, this`underflow, this`destroyed, repr
      ensures Valid() && View() == DropFrom(old(View()), 0)
    {
      ghost var goal := DropFrom(View(), 0);
      for i := 0 to |infos|
        invariant Valid() && DropFrom(View(), i) == goal
      {
        DropNextInfo(i, goal);
      }
    }

    /** sess_destroyed, after which nothing is left of the session. */
    method SessDestroyed()
      requires Valid()
      modifies this, repr
      ensures Valid() && View() == SessGone(old(View()))
    {
      DroppedIsGone(View());
      DropAllInfos();
      gone := true;
    }

    /** A slot lets go of its connection and the connection's queues. */
    method Detach(i: nat, ok: bool)
      requires Valid() && i < |infos|
      modifies infos[i]
      ensures Valid()
      ensures View() == SetSlot(old(View()), i, Detached(old(View()).slots[i]).(conn := if ok then old(infos[i].conn) else None))
    {
      var ci := infos[i];
      ci.sendq, ci.recvq := [], [];
      if !ok {
        ci.conn := None;
      }
      KeepsRing(i);
      OnlySlot(i);
    }

    method Attach(i: nat)
      requires Valid() && i < |infos|
      modifies this, infos[i]
      ensures Valid()
      ensures var s := old(View());
              View() == SetSlot(s, i, OnNewConn(s.slots[i], s.nextConn))
                        .(owner := s.owner[s.nextConn := i], nextConn := s.nextConn + 1)
    {
      var ci := infos[i];
      ci.conn := Some(nextConn);
      owner := owner[nextConn := i];
      nextConn := nextConn + 1;
      ci.isConnected := false;
      ci.isSuccessful := false;
      ci.numSent := 0;
      KeepsRing(i);
      OnlySlot(i);
    }

    /** create_conn.  The new connection's queues are empty. */
    method CreateConnFor(i: nat, ok: bool)
      requires Valid() && i < |infos|
      modifies this, repr
      ensures Valid() && View() == CreateConn(old(View()), i, ok)
    {
      CreateConnDetaches(View(), i, ok);
      Detach(i, ok);
      if ok {
        Attach(i);
      } else {
        SessDestroyed();
      }
    }

    /** The i-th ring has not changed. */
    twostate lemma KeepsRing(i: nat)
      requires old(Valid()) && Valid() && i < |infos|
      requires infos[i].rd == old(infos[i].rd) && infos[i].numPending == old(infos[i].numPending)
      requires unchanged(infos[i].call)
      ensures infos[i].Pending() == old(infos[i].Pending())
    {
      assert infos[i].call[..] == old(infos[i].call[..]);
    }

    /** The loop of send_calls. */
    method SendPending(i: nat)
      requires Valid() && i < |infos| && infos[i].conn.Some?
      modifies this, repr
      ensures Valid() && View() == SendAll(old(View()), i)
    {
      while infos[i].numSent < infos[i].numPending
        invariant Valid() && infos[i].conn.Some?
        invariant SendAll(View(), i) == SendAll(old(View()), i)
        decreases infos[i].numPending - infos[i].numSent
      {
        CoreSendNext(i);
      }
    }

    method SendCallsOf(i: nat, ok: bool)
      requires Valid() && i < |infos|
      modifies this, repr
      ensures Valid() && View() == SendCalls(old(View()), i, ok)
    {
      if infos[i].conn.None? {
        CreateConnFor(i, ok);
      } else if infos[i].isConnected {
        SendPending(i);
      }
    }

    method Insert(i: nat, c: CallId)
      requires Valid() && i < |infos| && infos[i].numPending < MAX_PIPED
      modifies this, repr
      ensures Valid()
      ensures View() == SetSlot(old(View()), i, Enqueued(old(View()).slots[i], c)).(refs := old(Counts()).Inc(c))
    {
      infos[i].Insert(c);
      IncRef(c);
      OnlySlot(i);
    }

    method SessionIssueCall(c: CallId, ok: bool)
      requires Valid()
      modifies this, repr
      ensures Valid() && View() == IssueCall(cfg, old(View()), c, ok)
    {
      ghost var slots := Slots();
      for i := 0 to |infos|
        invariant View() == old(View()) && Valid()
        invariant FirstRoom(slots, cfg.maxPiped) == i + FirstRoom(slots[i..], cfg.maxPiped)
      {
        assert slots[i..][0] == slots[i] && slots[i..][1..] == slots[i + 1..];
        if infos[i].numPending < cfg.maxPiped {
          Insert(i, c);
          SendCallsOf(i, ok);
          return;
        }
      }
      fate := ExitedTooManyCalls;
    }

    /** do_send, from the end of a request on. */
    method DoSend(i: nat)
      requires Valid() && i < |infos| && infos[i].sendq != []
      modifies this, repr
      ensures Valid() && View() == Sent(old(View()), i)
    {
      var ci := infos[i];
      var c := ci.sendq[0];
      ci.sendq := ci.sendq[1..];
      ci.recvq := ci.recvq + [c];
      KeepsRing(i);
      OnlySlot(i);
    }

    /** The slot is found through the call's connection. */
    method RemoveDone(c: CallId)
      requires Valid() && fate.Running?
      modifies this, repr
      ensures Valid() && View() == TakeDone(old(View()), c)
    {
      if c !in callConn || callConn[c] !in owner || owner[callConn[c]] >= |infos| {
        fate := AssertionFailed;
        return;
      }
      var k := owner[callConn[c]];
      var ci := infos[k];
      if ci.numPending == 0 || ci.call[ci.rd] != c || ci.numSent == 0 {
        fate := AssertionFailed;
        return;
      }
      ci.RemoveFirst();
      OnlySlot(k);
    }

    /** What a reply status means for the session. */
    method JudgeStatus(c: CallId, status: nat, ok: bool)
      requires Valid()
      modifies this, repr
      ensures Valid() && View() == AfterStatus(cfg, old(View()), c, status, ok)
    {
      if cfg.failureStatus != 0 && status == cfg.failureStatus {
        if cfg.retryOnFailure {
          SessionIssueCall(c, ok);
        } else {
          SessDestroyed();
        }
      }
    }

    /** call_done. */
    method CallDoneHandler(c: CallId, status: nat, ok: bool)
      requires Valid() && fate.Running?
      modifies this, repr
      ensures Valid() && View() == CallDone(cfg, old(View()), c, status, ok)
    {
      RemoveDone(c);
      if fate.Running? {
        JudgeStatus(c, status, ok);
        DecRef(c);
      }
    }

    method TakeReceived(i: nat) returns (c: CallId)
      requires Valid() && i < |infos| && infos[i].recvq != []
      modifies this, repr
      ensures Valid() && c == old(infos[i].recvq)[0]
      ensures View() == SetSlot(old(View()), i, old(View()).slots[i].(recvq := old(infos[i].recvq)[1..]))
    {
      var ci := infos[i];
      c := ci.recvq[0];
      ci.recvq := ci.recvq[1..];
      KeepsRing(i);
      OnlySlot(i);
    }

    /** recv_done. */
    method RecvDone(i: nat, status: nat, ok: bool)
      requires Valid() && fate.Running? && i < |infos| && infos[i].recvq != []
      modifies this, repr
      ensures Valid() && View() == Done(cfg, old(View()), i, status, ok)
    {
      ghost var slot := View().slots[i];
      var c := TakeReceived(i);
      CallDoneHandler(c, status, ok);
      if !fate.AssertionFailed? {
        DecRef(c);
      }
    }

    /** core_close of a connection that its slot has let go of. */
    method CloseOld(sendq: seq<CallId>, recvq: seq<CallId>)
      requires Valid()
      modifies this`refCount, this`underflow, this`destroyed
      ensures Valid() && View() == old(View()).(refs := old(Counts()).DecAll(sendq).DecAll(recvq))
    {
      DecRefs(sendq);
      DecRefs(recvq);
    }

    /** conn_failure: conn_failed, then core_close of the old connection. */
    method ConnFailure(i: nat, ok: bool)
      requires Valid() && i < |infos|
      modifies this, repr
      ensures Valid() && View() == Failed(cfg, old(View()), i, ok)
    {
      ghost var slot := View().slots[i];
      var ci := infos[i];
      var sendq, recvq := ci.sendq, ci.recvq;
      if ci.isSuccessful || cfg.retryOnFailure {
        CreateConnFor(i, ok);
        CloseOld(sendq, recvq);
      } else {
        SessDestroyed();
      }
    }

    method ConnConnected(i: nat)
      requires Valid() && i < |infos| && infos[i].conn.Some?
      modifies this, repr
      ensures Valid()
      ensures View() == SendAll(SetSlot(old(View()), i, old(View()).slots[i].(isConnected := true)), i)
    {
      infos[i].isConnected := true;
      KeepsRing(i);
      OnlySlot(i);
      SendPending(i);
    }

    method NewCallMade(c: CallId)
      requires Valid() && Enabled(View(), NewCall(c))
      modifies this
      ensures Valid() && View() == Next(cfg, old(View()), NewCall(c))
    {
      IncRef(c);
      created, holds := created + {c}, holds + multiset{c};
    }

    method CallReleased(c: CallId)
      requires Valid() && Enabled(View(), Release(c))
      modifies this
      ensures Valid() && View() == Next(cfg, old(View()), Release(c))
    {
      DecRef(c);
      holds := holds - multiset{c};
    }

    /** What the owner of calls does. */
    method HandleOwner(e: Event)
      requires Valid() && Enabled(View(), e) && (e.NewCall? || e.Issue? || e.Release?)
      modifies this, repr
      ensures Valid() && View() == Next(cfg, old(View()), e)
    {
      match e {
        case NewCall(c) => NewCallMade(c);
        case Issue(c, ok) => SessionIssueCall(c, ok);
        case Release(c) => CallReleased(c);
      }
    }

    /** What happens to connections. */
    method HandleConn(e: Event)
      requires Valid() && Enabled(View(), e) && !e.NewCall? && !e.Issue? && !e.Release?
      modifies this, repr
      ensures Valid() && View() == Next(cfg, old(View()), e)
    {
      match e {
        case Connected(i) => ConnConnected(i);
        case RequestSent(i) => DoSend(i);
        case ReplyDone(i, status, ok) => RecvDone(i, status, ok);
        case ConnFailed(i, ok) => ConnFailure(i, ok);
        case ConnTimeout(_) => SessDestroyed();
        case End => SessDestroyed();
      }
    }

    /** Whatever event comes, the session makes the protocol's step. */
    method Handle(e: Event)
      requires Valid() && Enabled(View(), e)
      modifies this, repr
      ensures Valid() && View() == Next(cfg, old(View()), e)
    {
      if e.NewCall? || e.Issue? || e.Release? {
        HandleOwner(e);
      } else {
        HandleConn(e);
      }
    }
  }

  /** A session's life under any events: the code ends where the protocol does, so all
      that is proved of protocol runs holds of it. */
  method HandleAll(cfg: Config, events: seq<Event>) returns (session: Session)
    requires cfg.Valid() && CanRun(cfg, Fresh(cfg), events)
    ensures fresh(session) && fresh(session.repr) && session.cfg == cfg && session.Valid()
    ensures session.View() == Run(cfg, Fresh(cfg), events) && Sound(cfg, session.View())
    ensures !session.fate.AssertionFailed? && !session.underflow
  {
    session := new Session(cfg);
    for k := 0 to |events|
      invariant fresh(session) && fresh(session.repr) && session.cfg == cfg && session.Valid()
      invariant CanRun(cfg, session.View(), events[k..])
      invariant Run(cfg, session.View(), events[k..]) == Run(cfg, Fresh(cfg), events)
    {
      assert events[k..][0] == events[k] && events[k..][1..] == events[k + 1..];
      session.Handle(events[k]);
    }
    assert events[|events|..] == [];
    FreshSound(cfg);
    RunSound(cfg, Fresh(cfg), events);
  }

  lemma DecAllCons(r: Refs, calls: seq<CallId>, j: nat)
    requires j < |calls|
    ensures r.DecAll(calls[j..]) == r.Dec(calls[j]).DecAll(calls[j + 1..])
  {
    assert calls[j..][1..] == calls[j + 1..];
  }

  lemma DropFromStep(s: Sess, i: nat)
    requires i < |s.slots|
    ensures DropFrom(s, i) == DropFrom(DropSlot(s, i), i + 1)
  {
  }
}
