/** A session of wsesslog: bursts of requests, the first request of each sent ahead of
    the rest, and a pause for thought between one burst and the next. */
module Bursts {
  import opened Shared

  datatype Burst = Burst(requests: seq<int>, userThinkTime: real)

  /** What happens in a session.  Issued carries the burst and the place in it, Paused the
      time for which the timer is set. */
  datatype Event = Issued(burst: nat, place: nat, request: int) | Destroyed | Paused(time: real) | Released

  /** How many requests come before burst b. */
  function Before(script: seq<Burst>, b: nat): nat
    requires b <= |script|
  {
    if b == 0 then 0 else Before(script, b - 1) + |script[b - 1].requests|
  }

  function IssuedIn(log: seq<Event>): nat {
    if log == [] then 0
    else IssuedIn(log[..|log| - 1]) + if log[|log| - 1].Issued? then 1 else 0
  }

  function DestroyedIn(log: seq<Event>): nat {
    if log == [] then 0
    else DestroyedIn(log[..|log| - 1]) + if log[|log| - 1].Destroyed? then 1 else 0
  }

  function Requests(log: seq<Event>): seq<int> {
    if log == [] then []
    else
      var e := log[|log| - 1];
      Requests(log[..|log| - 1]) + if e.Issued? then [e.request] else []
  }

  function Script(script: seq<Burst>): seq<int> {
    if script == [] then [] else Script(script[..|script| - 1]) + script[|script| - 1].requests
  }

  /** A burst, and how many of its requests have been issued. */
  datatype Position = Position(burst: nat, count: nat)

  function Latest(log: seq<Event>): Position {
    if log == [] then Position(0, 0)
    else
      var e := log[|log| - 1];
      if e.Issued? then Position(e.burst, e.place + 1) else Latest(log[..|log| - 1])
  }

  /** A script the configuration parser can produce. */
  ghost predicate Playable(script: seq<Burst>) {
    script != [] && forall b :: 0 <= b < |script| ==> script[b].requests != []
  }

  /** An event in its place: requests in script order, the first of a burst when all
      calls before the burst are destroyed, the others when one more is; the pause behind
      a burst when all its calls are, and the end when all are. */
  ghost predicate InPlace(script: seq<Burst>, before: seq<Event>, e: Event) {
    match e
    case Issued(b, r, request) =>
      && b < |script| && r < |script[b].requests| && request == script[b].requests[r]
      && IssuedIn(before) == Before(script, b) + r
      && DestroyedIn(before) >= Before(script, b) + (if r == 0 then 0 else 1)
      && Released !in before
    case Destroyed =>
      DestroyedIn(before) < IssuedIn(before) && Released !in before
    case Paused(time) =>
      var b := Latest(before).burst;
      && b + 1 < |script| && time == script[b].userThinkTime
      && DestroyedIn(before) == Before(script, b + 1) && Released !in before
    case Released =>
      DestroyedIn(before) == Before(script, |script|) && Released !in before
  }

  ghost predicate Faithful(script: seq<Burst>, log: seq<Event>) {
    forall k :: 0 <= k < |log| ==> FaithfulAt(script, log, k)
  }

  ghost predicate FaithfulAt(script: seq<Burst>, log: seq<Event>, k: nat)
    requires k < |log|
  {
    InPlace(script, log[..k], log[k])
  }

  lemma OneMore(script: seq<Burst>, log: seq<Event>, e: Event)
    requires Faithful(script, log) && InPlace(script, log, e)
    ensures Faithful(script, log + [e])
    ensures IssuedIn(log + [e]) == IssuedIn(log) + if e.Issued? then 1 else 0
    ensures DestroyedIn(log + [e]) == DestroyedIn(log) + if e.Destroyed? then 1 else 0
    ensures Released in log + [e] <==> Released in log || e == Released
  {
    var more := log + [e];
    assert more[..|log|] == log;
    forall k | 0 <= k < |more| ensures FaithfulAt(script, more, k) {
      if k < |log| {
        assert more[..k] == log[..k] && FaithfulAt(script, log, k);
      }
    }
  }

  lemma {:induction false} BeforeGrows(script: seq<Burst>, a: nat, b: nat)
    requires a <= b <= |script|
    ensures Before(script, a) <= Before(script, b)
    decreases b - a
  {
    if a < b {
      BeforeGrows(script, a, b - 1);
    }
  }

  lemma {:induction false} ScriptAt(script: seq<Burst>, b: nat, r: nat)
    requires b < |script| && r < |script[b].requests|
    ensures |Script(script)| == Before(script, |script|)
    ensures Before(script, b) + r < |Script(script)| && Script(script)[Before(script, b) + r] == script[b].requests[r]
    decreases |script|
  {
    var n := |script| - 1;
    var shorter := script[..n];
    BeforeShorter(script, n, n);
    if b < n {
      ScriptAt(shorter, b, r);
      BeforeShorter(script, n, b);
    } else {
      ScriptLength(shorter);
    }
  }

  lemma {:induction false} BeforeShorter(script: seq<Burst>, n: nat, b: nat)
    requires b <= n <= |script|
    ensures Before(script[..n], b) == Before(script, b)
    decreases b
  {
    if b > 0 {
      BeforeShorter(script, n, b - 1);
    }
  }

  lemma {:induction false} ScriptLength(script: seq<Burst>)
    ensures |Script(script)| == Before(script, |script|)
    decreases |script|
  {
    if script != [] {
      var n := |script| - 1;
      ScriptLength(script[..n]);
      BeforeShorter(script, n, n);
    }
  }

  /** What a faithful log has issued is the beginning of the script, each request once. */
  lemma {:induction false} RequestsInOrder(script: seq<Burst>, log: seq<Event>)
    requires Faithful(script, log)
    ensures |Requests(log)| == IssuedIn(log) && Requests(log) <= Script(script)
    decreases |log|
  {
    if log != [] {
      var n := |log| - 1;
      var shorter, e := log[..n], log[n];
      forall k | 0 <= k < n ensures FaithfulAt(script, shorter, k) {
        assert shorter[..k] == log[..k] && FaithfulAt(script, log, k);
      }
      RequestsInOrder(script, shorter);
      assert FaithfulAt(script, log, n);
      if e.Issued? {
        ScriptAt(script, e.burst, e.place);
      }
    }
  }

  lemma {:induction false} DestroyedAtMost(script: seq<Burst>, log: seq<Event>)
    requires Faithful(script, log)
    ensures DestroyedIn(log) <= IssuedIn(log)
    decreases |log|
  {
    if log != [] {
      var n := |log| - 1;
      FaithfulSoFar(script, log, n);
      DestroyedAtMost(script, log[..n]);
      assert FaithfulAt(script, log, n);
    }
  }

  lemma FaithfulSoFar(script: seq<Burst>, log: seq<Event>, k: nat)
    requires Faithful(script, log) && k <= |log|
    ensures Faithful(script, log[..k])
  {
    forall j | 0 <= j < k ensures FaithfulAt(script, log[..k], j) {
      assert log[..k][..j] == log[..j] && FaithfulAt(script, log, j);
    }
  }

  lemma {:induction false} IssuedGrows(log: seq<Event>, k: nat)
    requires k <= |log|
    ensures IssuedIn(log[..k]) <= IssuedIn(log)
    decreases |log|
  {
    if k < |log| {
      var n := |log| - 1;
      assert log[..n][..k] == log[..k];
      IssuedGrows(log[..n], k);
    } else {
      assert log[..k] == log;
    }
  }

  /** A session is released only when its whole script has been issued. */
  lemma AllIssued(script: seq<Burst>, log: seq<Event>)
    requires Faithful(script, log) && Released in log
    ensures Requests(log) == Script(script)
  {
    var k :| 0 <= k < |log| && log[k] == Released;
    assert FaithfulAt(script, log, k);
    FaithfulSoFar(script, log, k);
    DestroyedAtMost(script, log[..k]);
    IssuedGrows(log, k);
    RequestsInOrder(script, log);
    ScriptLength(script);
  }

  /** What becomes of a call that issue_calls wants to make: the session takes it, it
      takes it and fails over it, or there is no memory for a call. */
  datatype Answer = Taken | TakenAndFailed | NoCall

  /** Whether one of the first n answers fails the session. */
  function FailsWithin(answers: nat -> Answer, n: nat): bool {
    n > 0 && (answers(n - 1) != Taken || FailsWithin(answers, n - 1))
  }

  /** Whether one of the first n answers is that there is no call. */
  function NoneWithin(answers: nat -> Answer, n: nat): bool {
    n > 0 && (answers(n - 1).NoCall? || NoneWithin(answers, n - 1))
  }

  // ----- what is to happen, told by the history alone

  /** All there is to know of a session: its history, and whether it has failed. */
  datatype Book = Book(log: seq<Event>, failed: bool)

  function Pending(log: seq<Event>): int {
    IssuedIn(log) - DestroyedIn(log)
  }

  function Total(script: seq<Burst>): nat {
    Before(script, |script|)
  }

  /** The requests issued when n are due: all of them, or those in front of the first for
      which there is no call. */
  function Calls(script: seq<Burst>, at: Position, answers: nat -> Answer, n: nat): (calls: seq<Event>)
    requires at.burst < |script| && at.count + n <= |script[at.burst].requests|
  {
    if n == 0 then []
    else
      var sofar := Calls(script, at, answers, n - 1);
      if NoneWithin(answers, n) then sofar
      else sofar + [Issued(at.burst, at.count + n - 1, script[at.burst].requests[at.count + n - 1])]
  }

  /** In script order, each burst begun when all before it is destroyed and gone on with
      when its first call is; no more calls at a time than the queue takes; over when
      all are destroyed, which a session that has failed never gets to; and with no
      call pending, at the end of a burst. */
  ghost predicate Sound(script: seq<Burst>, maxQlen: nat, book: Book) {
    && Playable(script) && maxQlen >= 1 && Faithful(script, book.log)
    && 0 <= Pending(book.log) <= maxQlen
    && IssuedIn(book.log) <= Total(script)
    && (Released in book.log <==> DestroyedIn(book.log) == Total(script))
    && (book.failed ==> DestroyedIn(book.log) < Total(script))
    && (!book.failed ==> InStep(script, book.log))
  }

  ghost predicate InStep(script: seq<Burst>, log: seq<Event>) {
    var at := Latest(log);
    && at.burst < |script| && 1 <= at.count <= |script[at.burst].requests|
    && IssuedIn(log) == Before(script, at.burst) + at.count && DestroyedIn(log) >= Before(script, at.burst)
    && (Pending(log) == 0 ==> at.count == |script[at.burst].requests|)
  }

  /** The next n requests may be issued, one after the other. */
  ghost predicate Issuable(script: seq<Burst>, log: seq<Event>, at: Position, n: nat) {
    && at.burst < |script| && at.count + n <= |script[at.burst].requests| && (at.count == 0 ==> n <= 1)
    && IssuedIn(log) == Before(script, at.burst) + at.count
    && DestroyedIn(log) >= Before(script, at.burst) + if at.count == 0 then 0 else 1
  }

  /** And there is room for them. */
  ghost predicate MayIssue(script: seq<Burst>, maxQlen: nat, log: seq<Event>, at: Position, n: nat) {
    && Playable(script) && Faithful(script, log) && Released !in log && Issuable(script, log, at, n)
    && 0 <= Pending(log) && 0 < n && Pending(log) + n <= maxQlen
    && (at.count > 0 ==> Latest(log) == at)
  }

  lemma InScript(script: seq<Burst>, at: Position)
    requires at.burst < |script| && at.count <= |script[at.burst].requests|
    ensures Before(script, at.burst) + at.count <= Total(script)
  {
    assert Before(script, at.burst + 1) == Before(script, at.burst) + |script[at.burst].requests|;
    BeforeGrows(script, at.burst + 1, |script|);
  }

  lemma NextInScript(script: seq<Burst>, at: Position)
    requires at.burst < |script| && at.count < |script[at.burst].requests|
    ensures Before(script, at.burst) + at.count < Total(script)
  {
    InScript(script, Position(at.burst, at.count + 1));
  }

  lemma {:induction false} CallsSound(script: seq<Burst>, log: seq<Event>, at: Position, answers: nat -> Answer, n: nat)
    requires Faithful(script, log) && Released !in log && Issuable(script, log, at, n)
    ensures var more := log + Calls(script, at, answers, n);
            && Faithful(script, more) && Released !in more && DestroyedIn(more) == DestroyedIn(log)
            && IssuedIn(log) <= IssuedIn(more) <= IssuedIn(log) + n && IssuedIn(more) <= Total(script)
            && (!NoneWithin(answers, n) ==>
                  IssuedIn(more) == IssuedIn(log) + n && (n > 0 ==> Latest(more) == Position(at.burst, at.count + n)))
    decreases n
  {
    if n == 0 {
      assert log + [] == log;
      InScript(script, at);
    } else {
      CallsSound(script, log, at, answers, n - 1);
      if !NoneWithin(answers, n) {
        var sofar := log + Calls(script, at, answers, n - 1);
        var e := Issued(at.burst, at.count + n - 1, script[at.burst].requests[at.count + n - 1]);
        OneCallMore(script, sofar, Position(at.burst, at.count + n - 1), e);
        assert log + Calls(script, at, answers, n) == sofar + [e];
      }
    }
  }

  lemma OneCallMore(script: seq<Burst>, log: seq<Event>, at: Position, e: Event)
    requires Faithful(script, log) && Released !in log
    requires at.burst < |script| && at.count < |script[at.burst].requests|
    requires e == Issued(at.burst, at.count, script[at.burst].requests[at.count])
    requires IssuedIn(log) == Before(script, at.burst) + at.count
    requires DestroyedIn(log) >= Before(script, at.burst) + if at.count == 0 then 0 else 1
    ensures var more := log + [e];
            && Faithful(script, more) && Released !in more && DestroyedIn(more) == DestroyedIn(log)
            && IssuedIn(more) == IssuedIn(log) + 1 <= Total(script) && Latest(more) == Position(at.burst, at.count + 1)
  {
    NextInScript(script, at);
    OneMore(script, log, e);
    assert (log + [e])[..|log|] == log;
  }

  lemma {:induction false} NoneFails(answers: nat -> Answer, n: nat)
    ensures NoneWithin(answers, n) ==> FailsWithin(answers, n)
  {
    if n > 0 {
      NoneFails(answers, n - 1);
    }
  }

  /** n calls are due. */
  ghost function Issuing(script: seq<Burst>, maxQlen: nat, log: seq<Event>, at: Position, n: nat,
                         answers: nat -> Answer): (book: Book)
    requires MayIssue(script, maxQlen, log, at, n)
    ensures Sound(script, maxQlen, book) && DestroyedIn(book.log) == DestroyedIn(log)
  {
    CallsSound(script, log, at, answers, n);
    NextInScript(script, at);
    NoneFails(answers, n);
    Book(log + Calls(script, at, answers, n), FailsWithin(answers, n))
  }

  /** Unless the session fails, all n calls are made. */
  lemma IssuingLeaves(script: seq<Burst>, maxQlen: nat, log: seq<Event>, at: Position, n: nat, answers: nat -> Answer)
    requires MayIssue(script, maxQlen, log, at, n)
    ensures var book := Issuing(script, maxQlen, log, at, n, answers);
            !book.failed ==> Latest(book.log) == Position(at.burst, at.count + n) && Pending(book.log) == Pending(log) + n
  {
    CallsSound(script, log, at, answers, n);
    NoneFails(answers, n);
  }

  ghost function Started(script: seq<Burst>, maxQlen: nat, answers: nat -> Answer): (book: Book)
    requires Playable(script) && maxQlen >= 1
    ensures Sound(script, maxQlen, book) && DestroyedIn(book.log) == 0
  {
    Issuing(script, maxQlen, [], Position(0, 0), 1, answers)
  }

  /** How many calls are due behind this history, in which a call was just destroyed. */
  ghost function Due(script: seq<Burst>, maxQlen: nat, log: seq<Event>): nat
    requires Latest(log).burst < |script| && Latest(log).count <= |script[Latest(log).burst].requests|
    requires Pending(log) <= maxQlen
  {
    Smaller(|script[Latest(log).burst].requests| - Latest(log).count, maxQlen - Pending(log))
  }

  /** With no call due and none pending, the session pauses as its burst says. */
  function Waiting(script: seq<Burst>, log: seq<Event>): seq<Event>
    requires Latest(log).burst < |script|
  {
    if Pending(log) == 0 then log + [Paused(script[Latest(log).burst].userThinkTime)] else log
  }

  /** A call was just destroyed, and what is due then may happen. */
  ghost predicate Reacting(script: seq<Burst>, maxQlen: nat, log: seq<Event>) {
    && Latest(log).burst < |script| && Latest(log).count <= |script[Latest(log).burst].requests|
    && Pending(log) < maxQlen && DestroyedIn(log) <= Total(script)
    && if DestroyedIn(log) == Total(script) then
         Pending(log) == 0 && Sound(script, maxQlen, Book(log + [Released], false))
       else if Due(script, maxQlen, log) > 0 then
         MayIssue(script, maxQlen, log, Latest(log), Due(script, maxQlen, log))
       else
         Sound(script, maxQlen, Book(Waiting(script, log), false))
  }

  lemma DestroyedSound(script: seq<Burst>, maxQlen: nat, book: Book)
    requires Sound(script, maxQlen, book) && !book.failed && Pending(book.log) > 0
    ensures var log := book.log + [Destroyed];
            && Reacting(script, maxQlen, log) && Latest(log) == Latest(book.log)
            && IssuedIn(log) == IssuedIn(book.log) && DestroyedIn(log) == DestroyedIn(book.log) + 1
  {
    var log := book.log + [Destroyed];
    assert log[..|book.log|] == book.log;
    OneMore(script, book.log, Destroyed);
    if DestroyedIn(log) == Total(script) {
      OneMore(script, log, Released);
      assert (log + [Released])[..|log|] == log;
      if Latest(log).count < |script[Latest(log).burst].requests| {
        NextInScript(script, Latest(log));
      }
    } else if Due(script, maxQlen, log) == 0 {
      WaitingSound(script, maxQlen, log);
    }
  }

  lemma WaitingSound(script: seq<Burst>, maxQlen: nat, log: seq<Event>)
    requires Playable(script) && Faithful(script, log) && Released !in log
    requires 0 <= Pending(log) < maxQlen && DestroyedIn(log) < Total(script)
    requires Latest(log).burst < |script| && 1 <= Latest(log).count == |script[Latest(log).burst].requests|
    requires IssuedIn(log) == Before(script, Latest(log).burst) + Latest(log).count && DestroyedIn(log) >= Before(script, Latest(log).burst)
    ensures Sound(script, maxQlen, Book(Waiting(script, log), false))
  {
    var b := Latest(log).burst;
    assert Before(script, b + 1) == Before(script, b) + |script[b].requests|;
    InScript(script, Latest(log));
    if Pending(log) == 0 {
      var pause := Paused(script[b].userThinkTime);
      OneMore(script, log, pause);
      assert (log + [pause])[..|log|] == log;
    }
  }

  /** The last call of all releases the session; any other makes room for the rest of the
      burst, if there is a rest. */
  ghost function Reaction(script: seq<Burst>, maxQlen: nat, log: seq<Event>, answers: nat -> Answer): (after: Book)
    requires Reacting(script, maxQlen, log)
    ensures Sound(script, maxQlen, after)
  {
    if DestroyedIn(log) == Total(script) then Book(log + [Released], false)
    else if Due(script, maxQlen, log) > 0 then Issuing(script, maxQlen, log, Latest(log), Due(script, maxQlen, log), answers)
    else Book(Waiting(script, log), false)
  }

  /** A session that has failed lets its calls go and does nothing else. */
  ghost function AfterDestroyed(script: seq<Burst>, maxQlen: nat, book: Book, answers: nat -> Answer): (after: Book)
    requires Sound(script, maxQlen, book) && (book.failed || Pending(book.log) > 0)
    ensures Sound(script, maxQlen, after)
    ensures DestroyedIn(after.log) == DestroyedIn(book.log) + if book.failed then 0 else 1
  {
    if book.failed then book
    else
      DestroyedSound(script, maxQlen, book);
      var log := book.log + [Destroyed];
      assert (log + [Released])[..|log|] == log;
      Reaction(script, maxQlen, log, answers)
  }

  /** A session pauses when no call is pending and there is a burst to come. */
  ghost predicate Pausing(script: seq<Burst>, book: Book) {
    !book.failed && Pending(book.log) == 0 && DestroyedIn(book.log) < Total(script)
  }

  lemma PauseSound(script: seq<Burst>, maxQlen: nat, book: Book)
    requires Sound(script, maxQlen, book) && Pausing(script, book)
    ensures MayIssue(script, maxQlen, book.log, Position(Latest(book.log).burst + 1, 0), 1)
  {
    var b := Latest(book.log).burst;
    assert Before(script, b + 1) == Before(script, b) + |script[b].requests|;
  }

  ghost function AfterPause(script: seq<Burst>, maxQlen: nat, book: Book, answers: nat -> Answer): (after: Book)
    requires Sound(script, maxQlen, book) && Pausing(script, book)
    ensures Sound(script, maxQlen, after) && DestroyedIn(after.log) == DestroyedIn(book.log)
  {
    PauseSound(script, maxQlen, book);
    Issuing(script, maxQlen, book.log, Position(Latest(book.log).burst + 1, 0), 1, answers)
  }

  // ----- whole runs

  datatype Input = CallGone(answers: nat -> Answer) | ThinkTimeOver(answers: nat -> Answer)

  /** Only a pending call can be destroyed, and only a pause can be over. */
  ghost predicate Accepts(script: seq<Burst>, book: Book, input: Input) {
    !book.failed && if input.CallGone? then Pending(book.log) > 0 else Pausing(script, book)
  }

  ghost function Next(script: seq<Burst>, maxQlen: nat, book: Book, input: Input): (after: Book)
    requires Sound(script, maxQlen, book)
    ensures Sound(script, maxQlen, after)
  {
    if !Accepts(script, book, input) then book
    else if input.CallGone? then AfterDestroyed(script, maxQlen, book, input.answers)
    else AfterPause(script, maxQlen, book, input.answers)
  }

  /** A session that begins with these answers and then meets these inputs. */
  ghost function Course(script: seq<Burst>, maxQlen: nat, first: nat -> Answer, inputs: seq<Input>): (book: Book)
    requires Playable(script) && maxQlen >= 1
    ensures Sound(script, maxQlen, book)
  {
    if inputs == [] then Started(script, maxQlen, first)
    else Next(script, maxQlen, Course(script, maxQlen, first, inputs[..|inputs| - 1]), inputs[|inputs| - 1])
  }

  /** How many calls are due over an input. */
  ghost function Asked(script: seq<Burst>, maxQlen: nat, book: Book, input: Input): nat
    requires Sound(script, maxQlen, book)
  {
    if !Accepts(script, book, input) then 0
    else if input.ThinkTimeOver? then 1
    else
      var log := book.log + [Destroyed];
      DestroyedSound(script, maxQlen, book);
      if DestroyedIn(log) == Total(script) then 0 else Due(script, maxQlen, log)
  }

  /** One of the answers that were asked for has failed the session. */
  ghost predicate Failing(script: seq<Burst>, maxQlen: nat, first: nat -> Answer, inputs: seq<Input>)
    requires Playable(script) && maxQlen >= 1
  {
    FailsWithin(first, 1)
    || exists k :: 0 <= k < |inputs| && FailingAt(script, maxQlen, first, inputs, k)
  }

  ghost predicate FailingAt(script: seq<Burst>, maxQlen: nat, first: nat -> Answer, inputs: seq<Input>, k: nat)
    requires Playable(script) && maxQlen >= 1 && k < |inputs|
  {
    FailsWithin(inputs[k].answers, Asked(script, maxQlen, Course(script, maxQlen, first, inputs[..k]), inputs[k]))
  }

  /** How many calls were pending when they were said to be gone, before any failure. */
  ghost function CallsGone(script: seq<Burst>, maxQlen: nat, first: nat -> Answer, inputs: seq<Input>): nat
    requires Playable(script) && maxQlen >= 1
  {
    if inputs == [] then 0
    else
      var k := |inputs| - 1;
      CallsGone(script, maxQlen, first, inputs[..k])
      + if inputs[k].CallGone? && Accepts(script, Course(script, maxQlen, first, inputs[..k]), inputs[k]) then 1 else 0
  }

  /** A session fails if and only if an answer fails it; it destroys as many calls as are
      taken from it; and it is released if and only if that is the whole script. */
  lemma {:induction false} CourseOutcome(script: seq<Burst>, maxQlen: nat, first: nat -> Answer, inputs: seq<Input>)
    requires Playable(script) && maxQlen >= 1
    ensures var book := Course(script, maxQlen, first, inputs);
            && (book.failed <==> Failing(script, maxQlen, first, inputs))
            && DestroyedIn(book.log) == CallsGone(script, maxQlen, first, inputs)
            && (Released in book.log <==> DestroyedIn(book.log) == |Script(script)|)
  {
    ScriptLength(script);
    if inputs != [] {
      var k := |inputs| - 1;
      CourseOutcome(script, maxQlen, first, inputs[..k]);
      FailingOneMore(script, maxQlen, first, inputs);
      assert FailsWithin(inputs[k].answers, 0) == false;
    }
  }

  lemma FailingOneMore(script: seq<Burst>, maxQlen: nat, first: nat -> Answer, inputs: seq<Input>)
    requires Playable(script) && maxQlen >= 1 && inputs != []
    ensures var k := |inputs| - 1;
            Failing(script, maxQlen, first, inputs)
            <==> Failing(script, maxQlen, first, inputs[..k]) || FailingAt(script, maxQlen, first, inputs, k)
  {
    var k := |inputs| - 1;
    forall j | 0 <= j < k
      ensures FailingAt(script, maxQlen, first, inputs[..k], j) == FailingAt(script, maxQlen, first, inputs, j) {
      assert inputs[..k][..j] == inputs[..j];
    }
  }

  /** Every call that was asked for is taken. */
  ghost predicate AllTaken(answers: nat -> Answer) {
    forall i: nat :: answers(i).Taken?
  }

  lemma {:induction false} TakenCalls(answers: nat -> Answer, n: nat)
    requires AllTaken(answers)
    ensures !FailsWithin(answers, n) && !NoneWithin(answers, n)
  {
    if n > 0 {
      TakenCalls(answers, n - 1);
    }
  }

  lemma NextTaken(script: seq<Burst>, maxQlen: nat, book: Book, input: Input)
    requires Sound(script, maxQlen, book) && Accepts(script, book, input) && AllTaken(input.answers)
    ensures var after := Next(script, maxQlen, book, input);
            && !after.failed
            && DestroyedIn(after.log) == DestroyedIn(book.log) + (if input.CallGone? then 1 else 0)
            && Latest(after.log).burst == Latest(book.log).burst + (if input.CallGone? then 0 else 1)
  {
    if input.ThinkTimeOver? {
      PauseSound(script, maxQlen, book);
      TakenCalls(input.answers, 1);
      CallsSound(script, book.log, Position(Latest(book.log).burst + 1, 0), input.answers, 1);
    } else {
      DestroyedSound(script, maxQlen, book);
      var log := book.log + [Destroyed];
      assert (log + [Released])[..|log|] == log;
      if DestroyedIn(log) < Total(script) && Due(script, maxQlen, log) > 0 {
        TakenCalls(input.answers, Due(script, maxQlen, log));
        CallsSound(script, log, Latest(log), input.answers, Due(script, maxQlen, log));
      }
    }
  }

  ghost predicate AllAccepted(script: seq<Burst>, maxQlen: nat, first: nat -> Answer, inputs: seq<Input>)
    requires Playable(script) && maxQlen >= 1
  {
    forall k :: 0 <= k < |inputs| ==> AcceptedAt(script, maxQlen, first, inputs, k)
  }

  ghost predicate AcceptedAt(script: seq<Burst>, maxQlen: nat, first: nat -> Answer, inputs: seq<Input>, k: nat)
    requires Playable(script) && maxQlen >= 1 && k < |inputs|
  {
    Accepts(script, Course(script, maxQlen, first, inputs[..k]), inputs[k]) && AllTaken(inputs[k].answers)
  }

  lemma AllAcceptedSoFar(script: seq<Burst>, maxQlen: nat, first: nat -> Answer, inputs: seq<Input>, n: nat)
    requires Playable(script) && maxQlen >= 1 && n <= |inputs| && AllAccepted(script, maxQlen, first, inputs)
    ensures AllAccepted(script, maxQlen, first, inputs[..n])
  {
    forall k | 0 <= k < n ensures AcceptedAt(script, maxQlen, first, inputs[..n], k) {
      assert AcceptedAt(script, maxQlen, first, inputs, k);
      assert inputs[..n][..k] == inputs[..k];
    }
  }

  lemma {:induction false} CountsInputs(script: seq<Burst>, maxQlen: nat, first: nat -> Answer, inputs: seq<Input>)
    requires Playable(script) && maxQlen >= 1 && AllTaken(first) && AllAccepted(script, maxQlen, first, inputs)
    ensures var book := Course(script, maxQlen, first, inputs);
            !book.failed && |inputs| == DestroyedIn(book.log) + Latest(book.log).burst
  {
    if inputs == [] {
      TakenCalls(first, 1);
      CallsSound(script, [], Position(0, 0), first, 1);
    } else {
      var k := |inputs| - 1;
      AllAcceptedSoFar(script, maxQlen, first, inputs, k);
      CountsInputs(script, maxQlen, first, inputs[..k]);
      assert AcceptedAt(script, maxQlen, first, inputs, k);
      NextTaken(script, maxQlen, Course(script, maxQlen, first, inputs[..k]), inputs[k]);
    }
  }

  lemma EndsInLastBurst(script: seq<Burst>, maxQlen: nat, book: Book)
    requires Sound(script, maxQlen, book) && !book.failed
    ensures Latest(book.log).burst < |script|
    ensures DestroyedIn(book.log) <= Total(script)
    ensures DestroyedIn(book.log) == Total(script) ==> Pending(book.log) == 0 && Latest(book.log).burst == |script| - 1
  {
    var at := Latest(book.log);
    if at.burst < |script| - 1 {
      NextInScript(script, Position(at.burst + 1, 0));
      assert Before(script, at.burst + 1) == Before(script, at.burst) + |script[at.burst].requests|;
    }
  }

  /** A session whose calls are all taken gets to its end: until then it waits either for
      a call or for a pause, and it is released with the input that makes one for every
      request and one for every pause. */
  lemma RunsToItsEnd(script: seq<Burst>, maxQlen: nat, first: nat -> Answer, inputs: seq<Input>, next: nat -> Answer)
    requires Playable(script) && maxQlen >= 1 && AllTaken(first) && AllAccepted(script, maxQlen, first, inputs)
    ensures var book := Course(script, maxQlen, first, inputs);
            var end := |Script(script)| + |script| - 1;
            && |inputs| <= end && (Released in book.log <==> |inputs| == end)
            && (|inputs| < end ==> Accepts(script, book, CallGone(next)) != Accepts(script, book, ThinkTimeOver(next)))
  {
    CountsInputs(script, maxQlen, first, inputs);
    ScriptLength(script);
    EndsInLastBurst(script, maxQlen, Course(script, maxQlen, first, inputs));
  }

  // ----- the code

  /** How many calls issue_calls is to make: the first of a burst, or what is left of it,
      and no more than there is room for. */
  function Plan(inBurst: nat, size: nat, room: nat): nat
    requires inBurst <= size
  {
    Smaller(if inBurst > 0 then size - inBurst else 1, room)
  }

  /** Behind an answer that there is no call nothing is issued. */
  lemma {:induction false} CallsStop(script: seq<Burst>, at: Position, answers: nat -> Answer, m: nat, n: nat)
    requires at.burst < |script| && at.count + n <= |script[at.burst].requests|
    requires m <= n && NoneWithin(answers, m)
    ensures Calls(script, at, answers, n) == Calls(script, at, answers, m) && NoneWithin(answers, n)
    decreases n - m
  {
    if m < n {
      CallsStop(script, at, answers, m, n - 1);
    }
  }

  /** The fields of a session, but for what is told of it in its book. */
  datatype Fields = Fields(burst: nat, req: nat, inBurst: nat, target: nat, destroyed: nat, total: nat, timer: bool, qlen: nat)

  /** The counters are right, when so many calls of the burst are still to be made. */
  ghost predicate Counted(script: seq<Burst>, log: seq<Event>, f: Fields, ahead: nat) {
    && f.total == Total(script) && f.destroyed == DestroyedIn(log) && f.qlen == Pending(log)
    && f.burst < |script| && f.inBurst == f.req + ahead && f.target == Before(script, f.burst + 1)
  }

  /** The fields are as the book wants them; of a session that has failed only the book
      counts. */
  ghost predicate Kept(script: seq<Burst>, maxQlen: nat, book: Book, f: Fields) {
    && Sound(script, maxQlen, book)
    && (!book.failed ==>
          && Counted(script, book.log, f, 0) && (f.timer <==> Pausing(script, book))
          && Position(f.burst, f.req) == if f.timer then Position(Latest(book.log).burst + 1, 0) else Latest(book.log))
  }

  /** A call was just destroyed. */
  ghost predicate Open(script: seq<Burst>, maxQlen: nat, log: seq<Event>, f: Fields) {
    && Reacting(script, maxQlen, log) && Counted(script, log, f, 0) && !f.timer && Position(f.burst, f.req) == Latest(log)
  }

  lemma TakenOff(script: seq<Burst>, maxQlen: nat, book: Book, f: Fields)
    requires Kept(script, maxQlen, book, f) && !book.failed && f.qlen > 0
    ensures Open(script, maxQlen, book.log + [Destroyed], f.(qlen := f.qlen - 1, destroyed := f.destroyed + 1))
  {
    DestroyedSound(script, maxQlen, book);
  }

  /** The calls of issue_calls have been made. */
  lemma IssuedKept(script: seq<Burst>, maxQlen: nat, log: seq<Event>, f: Fields, n: nat, answers: nat -> Answer)
    requires MayIssue(script, maxQlen, log, Position(f.burst, f.req), n) && Counted(script, log, f, n) && !f.timer
    ensures Kept(script, maxQlen, Issuing(script, maxQlen, log, Position(f.burst, f.req), n, answers),
                 f.(req := f.req + n, qlen := f.qlen + n))
  {
    var at := Position(f.burst, f.req);
    IssuingLeaves(script, maxQlen, log, at, n, answers);
    var book := Issuing(script, maxQlen, log, at, n, answers);
    assert Sound(script, maxQlen, book);
  }

  /** The last call is gone. */
  lemma ReleasedKept(script: seq<Burst>, maxQlen: nat, log: seq<Event>, f: Fields)
    requires Open(script, maxQlen, log, f) && DestroyedIn(log) == Total(script)
    ensures Kept(script, maxQlen, Book(log + [Released], false), f)
  {
    assert (log + [Released])[..|log|] == log;
  }

  /** The burst is over, and there is another. */
  lemma PauseKept(script: seq<Burst>, maxQlen: nat, log: seq<Event>, f: Fields)
    requires Open(script, maxQlen, log, f) && f.destroyed >= f.target && f.destroyed < f.total
    requires f.inBurst == |script[f.burst].requests|
    ensures f.burst + 1 < |script| && Pending(log) == 0
    ensures Kept(script, maxQlen, Book(log + [Paused(script[f.burst].userThinkTime)], false),
                 f.(burst := f.burst + 1, req := 0, inBurst := 0, target := f.target + |script[f.burst + 1].requests|, timer := true))
  {
    assert Before(script, f.burst + 1) == Before(script, f.burst) + |script[f.burst].requests|;
  }

  /** The burst goes on, or its calls are waited for. */
  lemma OpenGoesOn(script: seq<Burst>, maxQlen: nat, log: seq<Event>, f: Fields)
    requires Open(script, maxQlen, log, f) && f.destroyed < f.total
    ensures var n := Plan(f.inBurst, |script[f.burst].requests|, maxQlen - f.qlen);
            f.inBurst < |script[f.burst].requests| ==>
              n == Due(script, maxQlen, log) && MayIssue(script, maxQlen, log, Position(f.burst, f.req), n)
    ensures f.inBurst == |script[f.burst].requests| && f.destroyed < f.target ==> Kept(script, maxQlen, Book(Waiting(script, log), false), f)
  {
  }

  class Session {
    const script: seq<Burst>
    /** session_max_qlen. */
    const maxQlen: nat
    /** An index past the end stands for a null pointer. */
    var currentBurst: nat
    var currentReq: nat
    var numCallsInThisBurst: nat
    var numCallsTarget: nat
    var numCallsDestroyed: nat
    var totalNumReqs: nat
    var timer: bool
    /** session_current_qlen. */
    var currentQlen: nat
    var failed: bool
    ghost var log: seq<Event>

    ghost function View(): Book
      reads this
    {
      Book(log, failed)
    }

    ghost function State(): Fields
      reads this
    {
      Fields(currentBurst, currentReq, numCallsInThisBurst, numCallsTarget, numCallsDestroyed, totalNumReqs, timer, currentQlen)
    }

    ghost predicate Valid()
      reads this
    {
      Kept(script, maxQlen, View(), State())
    }

    /** sess_create. */
    constructor (script: seq<Burst>, maxQlen: nat, answers: nat -> Answer)
      requires Playable(script) && maxQlen >= 1
      ensures Valid() && this.script == script && this.maxQlen == maxQlen
      ensures View() == Started(script, maxQlen, answers)
    {
      this.script, this.maxQlen := script, maxQlen;
      currentBurst, currentReq := 0, 0;
      totalNumReqs := Before(script, |script|);
      numCallsTarget := |script[0].requests|;
      numCallsInThisBurst, numCallsDestroyed, timer, currentQlen, failed, log := 0, 0, false, 0, false, [];
      new;
      assert Before(script, 1) == Before(script, 0) + |script[0].requests|;
      IssueCalls(answers, 1);
    }

    /** The body of the loop of issue_calls. */
    method IssueOne(answer: Answer)
      requires currentBurst < |script| && currentReq < |script[currentBurst].requests|
      modifies `currentReq, `failed, `log, `currentQlen
      ensures failed == (old(failed) || !answer.Taken?)
      ensures answer.NoCall? ==> currentReq == old(currentReq) && log == old(log) && currentQlen == old(currentQlen)
      ensures !answer.NoCall? ==>
                && currentReq == old(currentReq) + 1 && currentQlen == old(currentQlen) + 1
                && log == old(log) + [Issued(currentBurst, old(currentReq), script[currentBurst].requests[old(currentReq)])]
    {
      if answer.NoCall? {
        failed := true;
        return;
      }
      assert currentReq < |script[currentBurst].requests|;  // no request past the end of the burst
      var request := script[currentBurst].requests[currentReq];
      log := log + [Issued(currentBurst, currentReq, request)];
      currentReq := currentReq + 1;
      if answer.TakenAndFailed? {
        failed := true;
      }
      currentQlen := currentQlen + 1;
    }

    /** The loop of issue_calls. */
    method IssueMany(toCreate: nat, answers: nat -> Answer)
      requires !failed && currentBurst < |script| && currentReq + toCreate <= |script[currentBurst].requests|
      modifies `currentReq, `failed, `log, `currentQlen
      ensures log == old(log) + Calls(script, Position(currentBurst, old(currentReq)), answers, toCreate)
      ensures failed == FailsWithin(answers, toCreate)
      ensures !failed ==> currentReq == old(currentReq) + toCreate && currentQlen == old(currentQlen) + toCreate
    {
      ghost var at := Position(currentBurst, currentReq);
      for i := 0 to toCreate
        invariant currentReq == at.count + i && currentQlen == old(currentQlen) + i
        invariant log == old(log) + Calls(script, at, answers, i)
        invariant failed == FailsWithin(answers, i) && !NoneWithin(answers, i)
      {
        IssueOne(answers(i));
        assert answers(i + 1 - 1) == answers(i);
        if answers(i).NoCall? {
          CallsStop(script, at, answers, i + 1, toCreate);
          NoneFails(answers, toCreate);
          return;
        }
      }
    }

    /** issue_calls.  A session that fails over a call takes the others all the same. */
    method IssueCalls(answers: nat -> Answer, ghost due: nat)
      requires !failed && !timer && Counted(script, log, State(), 0) && currentQlen < maxQlen
      requires currentReq < |script[currentBurst].requests|
      requires due == Plan(currentReq, |script[currentBurst].requests|, maxQlen - currentQlen)
      requires MayIssue(script, maxQlen, log, Position(currentBurst, currentReq), due)
      modifies this
      ensures Valid()
      ensures View() == Issuing(script, maxQlen, old(log), Position(old(currentBurst), old(currentReq)), due, answers)
    {
      var toCreate := 1;
      if numCallsInThisBurst > 0 {
        toCreate := |script[currentBurst].requests| - numCallsInThisBurst;
      }
      var n := maxQlen - currentQlen;
      if n < toCreate {
        toCreate := n;
      }
      assert toCreate == due;
      numCallsInThisBurst := numCallsInThisBurst + toCreate;
      IssuedKept(script, maxQlen, log, State(), toCreate, answers);
      IssueMany(toCreate, answers);
    }

    method UserThinkTimeExpired(answers: nat -> Answer)
      requires Valid() && timer && !failed
      modifies this
      ensures Valid() && View() == AfterPause(script, maxQlen, old(View()), answers)
    {
      PauseSound(script, maxQlen, View());
      timer := false;
      IssueCalls(answers, 1);
    }

    method PrepareForNextBurst()
      requires !failed && Open(script, maxQlen, log, State()) && numCallsTarget <= numCallsDestroyed < totalNumReqs
      requires numCallsInThisBurst == |script[currentBurst].requests|
      modifies this
      ensures Valid() && timer && log == old(log) + [Paused(script[old(currentBurst)].userThinkTime)] && !failed
      ensures Pending(old(log)) == 0
    {
      PauseKept(script, maxQlen, log, State());
      var thinkTime := script[currentBurst].userThinkTime;
      currentBurst := currentBurst + 1;
      assert currentBurst < |script|;  // there is a burst left
      currentReq := 0;
      numCallsInThisBurst := 0;
      numCallsTarget := numCallsTarget + |script[currentBurst].requests|;
      assert !timer;  // the assertion of the original
      timer := true;
      log := log + [Paused(thinkTime)];
    }

    /** What call_destroyed does once the call is counted. */
    method React(answers: nat -> Answer)
      requires !failed && Open(script, maxQlen, log, State())
      modifies this
      ensures Valid() && View() == Reaction(script, maxQlen, old(log), answers)
    {
      if numCallsDestroyed >= totalNumReqs {
        ReleasedKept(script, maxQlen, log, State());
        log := log + [Released];
        return;
      }
      OpenGoesOn(script, maxQlen, log, State());
      if numCallsInThisBurst < |script[currentBurst].requests| {
        IssueCalls(answers, Due(script, maxQlen, log));
      } else if numCallsDestroyed >= numCallsTarget {
        PrepareForNextBurst();
      }
    }

    /** call_destroyed, after the session has taken the call off its queue. */
    method CallDestroyed(answers: nat -> Answer)
      requires Valid() && (failed || currentQlen > 0)
      modifies this
      ensures Valid() && View() == AfterDestroyed(script, maxQlen, old(View()), answers)
    {
      if failed {
        return;
      }
      TakenOff(script, maxQlen, View(), State());
      log := log + [Destroyed];
      currentQlen := currentQlen - 1;
      numCallsDestroyed := numCallsDestroyed + 1;
      React(answers);
    }
  }

  /** Any session, whatever happens to it, in whatever order. */
  method Play(script: seq<Burst>, maxQlen: nat, first: nat -> Answer, inputs: seq<Input>) returns (s: Session)
    requires Playable(script) && maxQlen >= 1
    ensures fresh(s) && s.Valid() && s.script == script && s.View() == Course(script, maxQlen, first, inputs)
    ensures s.failed <==> Failing(script, maxQlen, first, inputs)
    ensures DestroyedIn(s.log) == CallsGone(script, maxQlen, first, inputs)
    ensures Released in s.log <==> DestroyedIn(s.log) == |Script(script)|
    ensures Requests(s.log) <= Script(script) && (Released in s.log ==> Requests(s.log) == Script(script))
  {
    s := new Session(script, maxQlen, first);
    for k := 0 to |inputs|
      invariant fresh(s) && s.Valid() && s.script == script && s.maxQlen == maxQlen
      invariant s.View() == Course(script, maxQlen, first, inputs[..k])
    {
      assert inputs[..k + 1][..k] == inputs[..k];
      Meet(s, inputs[k]);
    }
    assert inputs[..|inputs|] == inputs;
    CourseOutcome(script, maxQlen, first, inputs);
    CourseRequests(script, maxQlen, s.View());
  }

  /** One input, if it can come. */
  method Meet(s: Session, input: Input)
    requires s.Valid()
    modifies s
    ensures s.Valid() && s.View() == Next(s.script, s.maxQlen, old(s.View()), input)
  {
    match input {
      case CallGone(answers) =>
        if !s.failed && s.currentQlen > 0 {
          s.CallDestroyed(answers);
        }
      case ThinkTimeOver(answers) =>
        if !s.failed && s.timer {
          s.UserThinkTimeExpired(answers);
        }
    }
  }

  lemma CourseRequests(script: seq<Burst>, maxQlen: nat, book: Book)
    requires Sound(script, maxQlen, book)
    ensures Requests(book.log) <= Script(script) && (Released in book.log ==> Requests(book.log) == Script(script))
  {
    RequestsInOrder(script, book.log);
    if Released in book.log {
      AllIssued(script, book.log);
    }
  }
}
