/** Writing a request: the iovec array of a call, worked off by writev calls that
    may each take only part of it. */
module RequestWriter {
  import opened Shared

  /** Number of IOV_Element entries. */
  const IE_LEN: nat := 13
  const IE_PROTL: nat := 4
  const IE_HOST: nat := 5

  /** Element k of the request is what is in the array, but for the first `cut` bytes
      of the element at `index`, which is kept whole in iov_saved. */
  ghost predicate Partly(request: seq<string>, iov: seq<string>, index: nat, saved: string, cut: nat) {
    && |request| == |iov| == IE_LEN && index <= IE_LEN
    && (index < IE_LEN ==> saved == request[index] && cut <= |saved|)
    && (index == IE_LEN ==> cut == 0)
    && forall k :: 0 <= k < IE_LEN ==> iov[k] == if k == index then request[k][cut..] else request[k]
  }

  /** What has been written of a partly written request, and what has not. */
  lemma WrittenAndRest(request: seq<string>, iov: seq<string>, index: nat, saved: string, cut: nat)
    requires Partly(request, iov, index, saved, cut)
    ensures var written := Concat(request[..index]) + if index < IE_LEN then request[index][..cut] else "";
            Concat(request) == written + Concat(iov[index..])
  {
    ConcatSplit(request, index);
    if index < IE_LEN {
      assert request[index..][0] == request[index] && request[index..][1..] == request[index + 1..];
      assert iov[index..][0] == iov[index] && iov[index..][1..] == iov[index + 1..];
      assert iov[index + 1..] == request[index + 1..];
      assert request[index] == request[index][..cut] + iov[index];
    } else {
      assert request[index..] == [] && iov[index..] == [];
    }
  }

  /** Elements from i on after a write of `left` bytes: finished ones are put back
      whole, the first unfinished one is moved on and kept whole in iov_saved. */
  datatype Vector = Vector(iov: seq<string>, index: nat, saved: string)

  function AfterWrite(v: Vector, left: nat): Vector
    requires v.index <= |v.iov| == IE_LEN
    decreases IE_LEN - v.index
  {
    if v.index == IE_LEN then v
    else
      var part := v.iov[v.index];
      if left < |part| then v.(iov := v.iov[v.index := part[left..]])
      else AfterWrite(PartDone(v), left - |part|)
  }

  function PartDone(v: Vector): (w: Vector)
    requires v.index < |v.iov| == IE_LEN
    ensures |w.iov| == IE_LEN && w.index == v.index + 1
  {
    Vector(v.iov[v.index := v.saved], v.index + 1, if v.index + 1 < IE_LEN then v.iov[v.index + 1] else v.saved)
  }

  function Rest(v: Vector): string
    requires v.index <= |v.iov|
  {
    Concat(v.iov[v.index..])
  }

  lemma RestCons(v: Vector)
    requires v.index < |v.iov| == IE_LEN
    ensures Rest(v) == v.iov[v.index] + Rest(PartDone(v))
  {
    assert v.iov[v.index..][1..] == PartDone(v).iov[v.index + 1..];
  }

  lemma PartDonePartly(request: seq<string>, v: Vector, cut: nat)
    requires Partly(request, v.iov, v.index, v.saved, cut) && v.index < IE_LEN
    ensures Partly(request, PartDone(v).iov, v.index + 1, PartDone(v).saved, 0)
  {
  }

  lemma DropTwice(s: string, m: nat, n: nat)
    requires m + n <= |s|
    ensures s[m..][n..] == s[m + n..]
  {
  }

  lemma DropInFront(part: string, rest: string, left: nat)
    requires left <= |part|
    ensures (part + rest)[left..] == part[left..] + rest
  {
  }

  /** A write that ends inside the current element. */
  function Cut(v: Vector, left: nat): (w: Vector)
    requires v.index < |v.iov| == IE_LEN && left < |v.iov[v.index]|
    ensures |w.iov| == IE_LEN && w.index == v.index
  {
    v.(iov := v.iov[v.index := v.iov[v.index][left..]])
  }

  lemma CutPartly(request: seq<string>, v: Vector, cut: nat, left: nat)
    requires Partly(request, v.iov, v.index, v.saved, cut) && v.index < IE_LEN && left < |v.iov[v.index]|
    ensures Partly(request, Cut(v, left).iov, v.index, v.saved, cut + left)
  {
    DropTwice(request[v.index], cut, left);
  }

  lemma CutRest(v: Vector, left: nat)
    requires v.index < |v.iov| == IE_LEN && left < |v.iov[v.index]|
    ensures Rest(Cut(v, left)) == Rest(v)[left..] && Rest(Cut(v, left)) != ""
  {
    var w := Cut(v, left);
    RestCons(v);
    RestCons(w);
    assert PartDone(w).iov == PartDone(v).iov;
    DropInFront(v.iov[v.index], Rest(PartDone(v)), left);
  }

  lemma DropPart(part: string, rest: string, left: nat)
    requires |part| <= left <= |part + rest|
    ensures (part + rest)[left..] == rest[left - |part|..]
  {
  }

  lemma AfterWriteNext(v: Vector, left: nat)
    requires v.index < |v.iov| == IE_LEN && left >= |v.iov[v.index]|
    ensures AfterWrite(v, left) == AfterWrite(PartDone(v), left - |v.iov[v.index]|)
  {
  }

  lemma RestBehind(v: Vector, left: nat)
    requires v.index < |v.iov| == IE_LEN && |v.iov[v.index]| <= left <= |Rest(v)|
    ensures left - |v.iov[v.index]| <= |Rest(PartDone(v))|
    ensures Rest(v)[left..] == Rest(PartDone(v))[left - |v.iov[v.index]|..]
  {
    RestCons(v);
    DropPart(v.iov[v.index], Rest(PartDone(v)), left);
  }

  lemma {:induction false} AfterWriteRests(request: seq<string>, v: Vector, cut: nat, left: nat) returns (cut': nat)
    requires Partly(request, v.iov, v.index, v.saved, cut) && left <= |Rest(v)|
    ensures var w := AfterWrite(v, left);
            && Partly(request, w.iov, w.index, w.saved, cut')
            && Rest(w) == Rest(v)[left..] && (w.index == IE_LEN <==> Rest(w) == "")
    decreases IE_LEN - v.index
  {
    if v.index == IE_LEN {
      cut' := 0;
    } else if left < |v.iov[v.index]| {
      cut' := cut + left;
      CutPartly(request, v, cut, left);
      CutRest(v, left);
      assert AfterWrite(v, left) == Cut(v, left);
    } else {
      PartDonePartly(request, v, cut);
      RestBehind(v, left);
      AfterWriteNext(v, left);
      cut' := AfterWriteRests(request, PartDone(v), 0, left - |v.iov[v.index]|);
    }
  }

  // ----- what core_send offers

  /** What core_send looks at: the protocol version of the call, two options, the version
      of httperf, and the host name of the connection. */
  datatype Setup = Setup(version: nat, noHostHdr: bool, agent: string, fqdname: string)

  predicate KnownVersion(su: Setup) {
    su.version == 0x10000 || su.version == 0x10001
  }

  function ProtocolText(su: Setup): string {
    (if su.version == 0x10001 then " HTTP/1.1\r\nUser-Agent: httperf/" + su.agent
     else " HTTP/1.0\r\nUser-Agent: httperf/" + su.agent + "\r\nConnection: keep-alive")
    + if su.noHostHdr then "" else "\r\nHost: "
  }

  /** The request core_send makes of what is in the array.  The protocol element is
      always set afresh, the host element if it is to be empty or was never set. */
  function Offered(iov: seq<string>, hostGiven: bool, su: Setup): (offered: seq<string>)
    requires |iov| == IE_LEN
    ensures |offered| == IE_LEN
  {
    iov[IE_HOST := if su.noHostHdr then "" else if hostGiven then iov[IE_HOST] else su.fqdname]
       [IE_PROTL := ProtocolText(su)]
  }

  lemma OfferedParts(iov: seq<string>, hostGiven: bool, su: Setup)
    requires |iov| == IE_LEN
    ensures var offered := Offered(iov, hostGiven, su);
            Concat(offered) == Concat(iov[..4]) + offered[4] + offered[5] + Concat(iov[6..])
  {
    var offered := Offered(iov, hostGiven, su);
    ConcatSplit(offered, 4);
    assert offered[..4] == iov[..4];
    assert offered[4..][0] == offered[4] && offered[4..][1..] == offered[5..];
    assert offered[5..][0] == offered[5] && offered[5..][1..] == iov[6..];
    assert Concat(offered[4..]) == offered[4] + (offered[5] + Concat(iov[6..]));
  }

  /** The bytes of a request, whatever else is in the array: the protocol version, the
      program that asks, the wish to keep a 1.0 connection, and the host. */
  lemma WireText(iov: seq<string>, hostGiven: bool, su: Setup)
    requires |iov| == 13 && su.version in {0x10000, 0x10001}
    ensures var wire, front, back := Concat(Offered(iov, hostGiven, su)), Concat(iov[..4]), Concat(iov[6..]);
            var host := if hostGiven then iov[5] else su.fqdname;
            && (su.version == 0x10001 && !su.noHostHdr ==>
                  wire == front + (" HTTP/1.1\r\nUser-Agent: httperf/" + su.agent + "\r\nHost: ") + host + back)
            && (su.version == 0x10001 && su.noHostHdr ==>
                  wire == front + (" HTTP/1.1\r\nUser-Agent: httperf/" + su.agent) + back)
            && (su.version == 0x10000 && !su.noHostHdr ==>
                  wire == front + (" HTTP/1.0\r\nUser-Agent: httperf/" + su.agent + "\r\nConnection: keep-alive\r\nHost: ")
                          + host + back)
            && (su.version == 0x10000 && su.noHostHdr ==>
                  wire == front + (" HTTP/1.0\r\nUser-Agent: httperf/" + su.agent + "\r\nConnection: keep-alive") + back)
  {
    OfferedParts(iov, hostGiven, su);
    var t, front := Offered(iov, hostGiven, su)[4], Concat(iov[..4]);
    KeptAliveHost(su.agent);
    if su.noHostHdr {
      NothingBetween(front + t, Concat(iov[6..]));
    }
  }

  lemma NothingBetween(a: string, b: string)
    ensures a + "" + b == a + b
  {
  }

  lemma KeptAliveHost(agent: string)
    ensures " HTTP/1.0\r\nUser-Agent: httperf/" + agent + "\r\nConnection: keep-alive" + "\r\nHost: "
         == " HTTP/1.0\r\nUser-Agent: httperf/" + agent + "\r\nConnection: keep-alive\r\nHost: "
    ensures forall s: string :: s + "" == s
  {
    assert "\r\nConnection: keep-alive" + "\r\nHost: " == "\r\nConnection: keep-alive\r\nHost: ";
  }

  ghost predicate Contains(text: string, part: string) {
    exists k :: 0 <= k <= |text| - |part| && text[k..][..|part|] == part
  }

  predicate EndsIn(text: string, end: string) {
    |end| <= |text| && text[|text| - |end|..] == end
  }

  /** What the protocol element says: which version, that a 1.0 connection is to be kept, and
      whether a host is to follow, which is the connection's own if none was given. */
  lemma ProtocolSays(iov: seq<string>, hostGiven: bool, su: Setup)
    requires |iov| == 13 && su.version in {0x10000, 0x10001} && '\r' !in su.agent
    ensures var offered := Offered(iov, hostGiven, su);
            var t := offered[4];
            && (" HTTP/1.1\r\n" <= t <==> su.version == 0x10001)
            && (" HTTP/1.0\r\n" <= t <==> su.version == 0x10000)
            && (Contains(t, "\r\nConnection: keep-alive") <==> su.version == 0x10000)
            && (EndsIn(t, "\r\nHost: ") <==> !su.noHostHdr)
            && offered[5] == (if su.noHostHdr then "" else if hostGiven then iov[5] else su.fqdname)
            && forall k :: 0 <= k < 13 && k != 4 && k != 5 ==> offered[k] == iov[k]
  {
    FirstLine(su);
    ConnectionLine(su);
    HostLine(su);
  }

  /** The protocol element in pieces. */
  lemma TextParts(su: Setup) returns (start: string, mid: string, end: string)
    ensures start == if su.version == 0x10001 then " HTTP/1.1\r\n" else " HTTP/1.0\r\n"
    ensures mid == if su.version == 0x10001 then "" else "\r\nConnection: keep-alive"
    ensures end == if su.noHostHdr then "" else "\r\nHost: "
    ensures ProtocolText(su) == start + "User-Agent: httperf/" + su.agent + mid + end
  {
    start := if su.version == 0x10001 then " HTTP/1.1\r\n" else " HTTP/1.0\r\n";
    mid := if su.version == 0x10001 then "" else "\r\nConnection: keep-alive";
    end := if su.noHostHdr then "" else "\r\nHost: ";
    LinesJoined(su.version == 0x10001, start);
    if su.version == 0x10001 {
      NothingBehind(start + "User-Agent: httperf/" + su.agent);
    }
  }

  lemma NothingBehind(a: string)
    ensures a + "" == a
  {
  }

  lemma LinesJoined(newer: bool, start: string)
    requires start == if newer then " HTTP/1.1\r\n" else " HTTP/1.0\r\n"
    ensures start + "User-Agent: httperf/"
         == if newer then " HTTP/1.1\r\nUser-Agent: httperf/" else " HTTP/1.0\r\nUser-Agent: httperf/"
  {
  }

  lemma FirstLine(su: Setup)
    requires su.version in {0x10000, 0x10001}
    ensures " HTTP/1.1\r\n" <= ProtocolText(su) <==> su.version == 0x10001
    ensures " HTTP/1.0\r\n" <= ProtocolText(su) <==> su.version == 0x10000
  {
    var start, mid, end := TextParts(su);
    StartsIn(start, "User-Agent: httperf/", su.agent + mid, end);
    AppendAssoc(start + "User-Agent: httperf/", su.agent, mid);
  }

  lemma AppendAssoc(a: string, b: string, c: string)
    ensures a + (b + c) == a + b + c
  {
  }

  lemma StartsIn(first: string, rest: string, mid: string, end: string)
    ensures first <= first + rest + mid + end
    ensures |first| > 8 ==> (first + rest + mid + end)[8] == first[8]
  {
  }

  lemma ConnectionLine(su: Setup)
    requires su.version in {0x10000, 0x10001} && '\r' !in su.agent
    ensures Contains(ProtocolText(su), "\r\nConnection: keep-alive") <==> su.version == 0x10000
  {
    var start, mid, end := TextParts(su);
    if su.version == 0x10001 {
      NoKeepAlive(start + "User-Agent: httperf/", su.agent, end);
      assert start + "User-Agent: httperf/" + su.agent + mid == start + "User-Agent: httperf/" + su.agent;
    } else {
      KeepAlive(start + "User-Agent: httperf/" + su.agent, mid, end);
    }
  }

  lemma HostLine(su: Setup)
    requires su.version in {0x10000, 0x10001} && '\r' !in su.agent
    ensures EndsIn(ProtocolText(su), "\r\nHost: ") <==> !su.noHostHdr
  {
    var start, mid, end := TextParts(su);
    var front := start + "User-Agent: httperf/" + su.agent;
    if su.version == 0x10001 {
      LateEnd(start + "User-Agent: httperf/", su.agent);
      assert front + mid == front;
    } else {
      assert (front + mid)[|front + mid| - 8] == mid[|mid| - 8];
    }
    HostEnds(front + mid, end);
  }

  lemma KeepAlive(front: string, mid: string, end: string)
    ensures Contains(front + mid + end, mid)
  {
    assert (front + mid + end)[|front|..][..|mid|] == mid;
  }

  lemma NoKeepAlive(start: string, agent: string, end: string)
    requires start == " HTTP/1.1\r\n" + "User-Agent: httperf/" && '\r' !in agent
    requires end == "" || end == "\r\nHost: "
    ensures !Contains(start + agent + end, "\r\nConnection: keep-alive")
  {
    var t, part := start + agent + end, "\r\nConnection: keep-alive";
    forall k | 0 <= k <= |t| - |part| ensures t[k..][..|part|] != part {
      LineEndsOf(start, agent, end, k);
      assert t[k..][..|part|][0] == t[k] && t[k..][..|part|][2] == t[k + 2];
      assert part[0] == '\r' && part[2] == 'C';
    }
  }

  lemma LineEndsOf(start: string, agent: string, end: string, k: nat)
    requires start == " HTTP/1.1\r\n" + "User-Agent: httperf/" && '\r' !in agent
    requires (end == "" || end == "\r\nHost: ") && k + 2 < |start + agent + end|
    ensures var t := start + agent + end; t[k] == '\r' ==> t[k + 2] != 'C'
  {
    var t := start + agent + end;
    if k < |start| {
      assert t[k] == start[k];
    } else if k < |start + agent| {
      assert t[k] == agent[k - |start|];
    } else {
      assert t[k] == end[k - |start + agent|] && t[k + 2] == end[k - |start + agent| + 2];
    }
  }

  lemma HostEnds(front: string, end: string)
    requires |front| >= 8 && front[|front| - 8] != '\r'
    requires end == "" || end == "\r\nHost: "
    ensures EndsIn(front + end, "\r\nHost: ") <==> end != ""
  {
    if end == "" {
      assert front + end == front;
      assert front[|front| - 8..][0] == front[|front| - 8];
    }
  }

  lemma LateEnd(start: string, agent: string)
    requires '\r' !in agent && |start| == 31
    requires forall k :: 23 <= k < 31 ==> start[k] != '\r'
    ensures var front := start + agent; front[|front| - 8] != '\r'
  {
    var front := start + agent;
    var k := |front| - 8;
    assert if k < |start| then front[k] == start[k] else front[k] == agent[k - |start|];
  }

  /** A request that core_send has made once stays as it is. */
  lemma OfferedTwice(iov: seq<string>, hostGiven: bool, su: Setup)
    requires |iov| == IE_LEN
    ensures Offered(Offered(iov, hostGiven, su), true, su) == Offered(iov, hostGiven, su)
  {
  }

  /** A call that failed in the middle of a write is offered whole again exactly when the
      element it stopped in is still untouched or is the one set afresh. */
  lemma ResentWhole(request: seq<string>, su: Setup, v: Vector, cut: nat)
    requires Partly(request, v.iov, v.index, v.saved, cut) && Offered(request, true, su) == request
    ensures Concat(Offered(v.iov, true, su)) == Concat(request)
       <==> v.index == IE_LEN || v.index == IE_PROTL || |v.iov[v.index]| == |v.saved|
  {
    var offered := Offered(v.iov, true, su);
    assert request[IE_PROTL] == ProtocolText(su) && (su.noHostHdr ==> request[IE_HOST] == "");
    if v.index == IE_LEN || v.index == IE_PROTL || cut == 0 {
      assert offered == request;
    } else {
      assert offered == v.iov;
      ConcatSplit(v.iov, v.index);
      WrittenAndRest(request, v.iov, v.index, v.saved, cut);
      assert v.iov[..v.index] == request[..v.index];
    }
  }

  /** Such a call: one that stopped behind the first byte of its URI loses that byte. */
  lemma ResentCut(su: Setup, request: seq<string>, v: Vector)
    requires KnownVersion(su) && !su.noHostHdr
    requires request == ["GET", " ", "", "/index.html", ProtocolText(su), "www.example.com", "\r\n", "", "", "", "", "\r\n", ""]
    requires v == Vector(request[3 := "index.html"], 3, "/index.html")
    ensures Partly(request, v.iov, v.index, v.saved, 1) && Offered(request, true, su) == request
    ensures Concat(Offered(v.iov, true, su)) != Concat(request)
  {
    assert "/index.html"[1..] == "index.html";
    ResentWhole(request, su, v, 1);
  }

  lemma TakeMore(wrote: string, rest: string, n: nat)
    requires n <= |rest|
    ensures wrote + rest[..n] + rest[n..] == wrote + rest
  {
    assert rest == rest[..n] + rest[n..];
  }

  /** When the last element is done every element has been put back. */
  lemma Whole(request: seq<string>, v: Vector, cut: nat)
    requires Partly(request, v.iov, v.index, v.saved, cut)
    ensures v.index == IE_LEN ==> v.iov == request && Rest(v) == ""
  {
    if v.index == IE_LEN {
      assert forall k :: 0 <= k < IE_LEN ==> v.iov[k] == request[k];
    }
  }

  // ----- how far a request gets

  function Sum(rooms: seq<nat>): nat {
    if rooms == [] then 0 else Sum(rooms[..|rooms| - 1]) + rooms[|rooms| - 1]
  }

  lemma SumMore(rooms: seq<nat>, k: nat)
    requires k < |rooms|
    ensures Sum(rooms[..k + 1]) == Sum(rooms[..k]) + rooms[k]
  {
    assert rooms[..k + 1][..k] == rooms[..k];
  }

  /** How much of a request sockets take that have so much room one after the other. */
  function Taken(rooms: seq<nat>, request: seq<string>): (n: nat)
    ensures n <= |Concat(request)|
  {
    Smaller(Sum(rooms), |Concat(request)|)
  }

  lemma TakenMore(rooms: seq<nat>, k: nat, request: seq<string>)
    requires k < |rooms|
    ensures Taken(rooms[..k + 1], request) == Smaller(Taken(rooms[..k], request) + rooms[k], |Concat(request)|)
  {
    SumMore(rooms, k);
  }

  /** What core_send offers has a protocol element in it. */
  lemma NeverEmpty(request: seq<string>, su: Setup)
    requires |request| == IE_LEN && request[IE_PROTL] == ProtocolText(su)
    ensures Concat(request) != ""
  {
    ConcatSplit(request, IE_PROTL);
    assert request[IE_PROTL..][0] == ProtocolText(su) && |ProtocolText(su)| > 0;
  }

  class CallRequest {
    const iov: array<string>
    /** Whether the host element has a text, be it an empty one. */
    var hostGiven: bool
    var iovIndex: nat
    var iovSaved: string
    var size: nat

    ghost function View(): Vector
      reads this, iov
    {
      Vector(iov[..], iovIndex, iovSaved)
    }

    ghost predicate Valid(request: seq<string>, cut: nat)
      reads this, iov
    {
      iov.Length == IE_LEN && Partly(request, iov[..], iovIndex, iovSaved, cut)
    }

    constructor (iov: array<string>, hostGiven: bool)
      requires iov.Length == IE_LEN
      ensures this.iov == iov && this.hostGiven == hostGiven && size == 0
    {
      this.iov, this.hostGiven := iov, hostGiven;
      iovIndex, iovSaved, size := 0, "", 0;
    }

    /** The set-up in core_send; a version it does not know ends the program. */
    method Start(su: Setup) returns (known: bool)
      requires iov.Length == IE_LEN
      modifies this, iov
      ensures known <==> su.version == 0x10000 || su.version == 0x10001
      ensures known ==>
                var offered := Offered(old(iov[..]), old(hostGiven), su);
                Valid(offered, 0) && hostGiven && View() == Vector(offered, 0, offered[0])
      ensures size == old(size)
    {
      if su.noHostHdr {
        iov[IE_HOST] := "";
      } else if !hostGiven {
        iov[IE_HOST] := su.fqdname;
      }
      hostGiven := true;
      if su.version != 0x10000 && su.version != 0x10001 {
        return false;
      }
      iov[IE_PROTL] := ProtocolText(su);
      iovIndex := 0;
      iovSaved := iov[0];
      known := true;
      assert iov[..] == Offered(old(iov[..]), old(hostGiven), su);
    }

    /** do_send's loop after writev took nsent bytes.  Behind the last element there
        is nothing to copy to iov_saved. */
    method Advance(nsent: nat)
      requires iov.Length == IE_LEN && iovIndex < IE_LEN
      modifies this`iovIndex, this`iovSaved, this`size, iov
      ensures View() == AfterWrite(old(View()), nsent)
      ensures iovIndex <= IE_LEN && size == old(size) + nsent
    {
      size := size + nsent;
      var left: nat := nsent;
      while iovIndex < IE_LEN
        invariant iovIndex <= IE_LEN && size == old(size) + nsent
        invariant AfterWrite(View(), left) == AfterWrite(old(View()), nsent)
        decreases IE_LEN - iovIndex
      {
        ghost var v := View();
        if left < |iov[iovIndex]| {
          iov[iovIndex] := iov[iovIndex][left..];
          assert View() == AfterWrite(v, left);
          return;
        }
        left := left - |iov[iovIndex]|;
        iov[iovIndex] := iovSaved;
        iovIndex := iovIndex + 1;
        if iovIndex < IE_LEN {
          iovSaved := iov[iovIndex];
        }
        assert View() == PartDone(v);
      }
    }

    /** One writev call that took nsent bytes. */
    method Wrote(nsent: nat, ghost request: seq<string>, ghost cut: nat) returns (done: bool, ghost cut': nat)
      requires Valid(request, cut) && iovIndex < IE_LEN && nsent <= |Rest(View())|
      modifies this`iovIndex, this`iovSaved, this`size, iov
      ensures Valid(request, cut') && Rest(View()) == Rest(old(View()))[nsent..]
      ensures size == old(size) + nsent
      ensures done <==> iovIndex == IE_LEN
      ensures done <==> Rest(View()) == ""
    {
      cut' := AfterWriteRests(request, View(), cut, nsent);
      Advance(nsent);
      done := iovIndex == IE_LEN;
    }

    /** A request sent by writev calls: the socket gets the request from its first byte, as
        much of it as there has been room for, and the call is done exactly when that is
        all.  A finished request is the one core_send would offer again. */
    method Send(su: Setup, rooms: seq<nat>) returns (done: bool, wrote: string)
      requires iov.Length == IE_LEN && KnownVersion(su)
      modifies this, iov
      ensures var request := Offered(old(iov[..]), old(hostGiven), su);
              && wrote == Concat(request)[..Taken(rooms, request)]
              && iovIndex <= IE_LEN && Rest(View()) == Concat(request)[Taken(rooms, request)..]
              && size == old(size) + Taken(rooms, request)
              && (done <==> Sum(rooms) >= |Concat(request)|) && (done <==> iovIndex == IE_LEN)
              && (done ==> iov[..] == request == Offered(iov[..], hostGiven, su))
    {
      ghost var request := Offered(iov[..], hostGiven, su);
      OfferedTwice(iov[..], hostGiven, su);
      NeverEmpty(request, su);
      var _ := Start(su);
      assert request[0..] == request;
      done, wrote := WriteAll(rooms, request);
    }

    /** One writev call on a socket with so much room. */
    method WriteOnce(room: nat, wrote: string, ghost request: seq<string>, ghost cut: nat)
      returns (done: bool, now: string, ghost cut': nat)
      requires Valid(request, cut) && iovIndex < IE_LEN && wrote + Rest(View()) == Concat(request)
      modifies this`iovIndex, this`iovSaved, this`size, iov
      ensures Valid(request, cut') && now + Rest(View()) == Concat(request)
      ensures |now| == Smaller(|wrote| + room, |Concat(request)|) && size == old(size) + |now| - |wrote|
      ensures (done <==> iovIndex == IE_LEN) && (done <==> |now| == |Concat(request)|)
    {
      var offered := Concat(iov[iovIndex..]);
      var nsent := Smaller(room, |offered|);
      TakeMore(wrote, offered, nsent);
      now := wrote + offered[..nsent];
      done, cut' := Wrote(nsent, request, cut);
    }

    /** The writev calls. */
    method WriteAll(rooms: seq<nat>, ghost request: seq<string>) returns (done: bool, wrote: string)
      requires Valid(request, 0) && iovIndex == 0 && Rest(View()) == Concat(request) != ""
      modifies this`iovIndex, this`iovSaved, this`size, iov
      ensures wrote == Concat(request)[..Taken(rooms, request)] && size == old(size) + |wrote|
      ensures iovIndex <= IE_LEN && Rest(View()) == Concat(request)[Taken(rooms, request)..]
      ensures (done <==> Sum(rooms) >= |Concat(request)|) && (done <==> iovIndex == IE_LEN)
      ensures done ==> iov[..] == request
    {
      ghost var cut := 0;
      done, wrote := false, "";
      for k := 0 to |rooms|
        invariant Valid(request, cut) && iov.Length == IE_LEN
        invariant (done <==> iovIndex == IE_LEN) && (done <==> |wrote| == |Concat(request)|)
        invariant wrote + Rest(View()) == Concat(request) && size == old(size) + |wrote|
        invariant |wrote| == Taken(rooms[..k], request)
      {
        TakenMore(rooms, k, request);
        if !done {
          ghost var cut';
          done, wrote, cut' := WriteOnce(rooms[k], wrote, request, cut);
          cut := cut';
        }
      }
      assert rooms[..|rooms|] == rooms;
      Whole(request, View(), cut);
    }
  }
}
