/** The poll loop `_waitUntilBuildComplete`, the same in both clients: before
    each status request the elapsed time is checked against `buildTimeout`;
    a progress message is logged when it differs from the previous one; a
    failure status rejects, COMPLETE stops, any other status sleeps
    `pollInterval` and polls again. The loop is `whilst` with the status
    check as predicate and the sleep as body.

    The clock is injected: `clock(0)` is the start time and `clock(i + 1)` the
    time read at the head of iteration i. The status replies arrive in request
    order. */
module Polling {
  import opened Js
  import opened Transport
  import Whilst

  /** The status labels of `BuildInfo` that the loop distinguishes. Their
      text is defined by the build server's utility library; the loop relies
      only on their being distinct. */
  const COMPLETE: JsValue := Str("Complete")
  const ERROR: JsValue := Str("Error")
  const DOWNLOADED: JsValue := Str("Downloaded")
  const INVALID: JsValue := Str("Invalid")

  predicate IsFailureStatus(status: JsValue) {
    status == ERROR || status == DOWNLOADED || status == INVALID
  }

  /** What one status response says: `buildInfo.message` and `buildInfo.status`. */
  datatype BuildInfo = BuildInfo(message: JsValue, status: JsValue)

  /** Reading `message` and `status` from what `_fetch` resolved with; an
      empty (201) or `null` document makes the read throw. */
  function Observe(d: Decoded): Settled<BuildInfo, Error>
  {
    var message := Property(Value(d), "message");
    if message.Rejected? then Rejected(message.reason)
    else Resolved(BuildInfo(message.value, Property(Value(d), "status").value))
  }

  /** The status body is read as a `BuildInfo` unless it is empty or `null`;
      a text or binary body has neither field. */
  lemma ObserveCases(d: Decoded)
    ensures !Observe(d).Pending?
    ensures Observe(d).Rejected? <==> Value(d) == Undefined || Value(d) == Null
    ensures Observe(d).Rejected? ==> Observe(d).reason == TypeError("message")
    ensures d.Json? && d.doc.Obj? ==>
      Observe(d) == Resolved(BuildInfo(Get(d.doc.fields, "message"), Get(d.doc.fields, "status")))
    ensures d.Text? || d.Raw? ==> Observe(d) == Resolved(BuildInfo(Undefined, Undefined))
  {
  }

  /** The predicate of the loop at one iteration, given the time it reads
      and the reply its status request gets. */
  function Check(options: map<string, JsValue>, startTime: int, now: int, reply: Reply): (r: Settled<bool, Error>)
    ensures Exceeds(now - startTime, Get(options, "buildTimeout")) ==> r == Rejected(BuildTimeout)
    ensures r == Rejected(BuildTimeout) ==> Exceeds(now - startTime, Get(options, "buildTimeout"))
    ensures r.Pending? <==> !Exceeds(now - startTime, Get(options, "buildTimeout")) && reply.NoAnswer?
  {
    if Exceeds(now - startTime, Get(options, "buildTimeout")) then Rejected(BuildTimeout)
    else match Settle(reply)
      case Pending => Pending
      case Rejected(e) => Rejected(e)
      case Resolved(d) =>
        match Observe(d)
        case Resolved(info) =>
          if IsFailureStatus(info.status) then Rejected(BuildFailed(info.status))
          else Resolved(info.status != COMPLETE)
        case Rejected(e) => Rejected(e)
  }

  /** The predicate resolves exactly for a non-terminal status (true) or
      COMPLETE (false) read within the deadline, and rejects with
      `BuildFailed` exactly for a failure status. */
  lemma CheckVerdicts(options: map<string, JsValue>, startTime: int, now: int, reply: Reply)
    ensures forall b: bool :: Check(options, startTime, now, reply) == Resolved(b) <==>
      !Exceeds(now - startTime, Get(options, "buildTimeout")) && Settle(reply).Resolved? &&
      Observe(Settle(reply).value).Resolved? &&
      !IsFailureStatus(Observe(Settle(reply).value).value.status) &&
      (b <==> Observe(Settle(reply).value).value.status != COMPLETE)
    ensures forall s :: Check(options, startTime, now, reply) == Rejected(BuildFailed(s)) <==>
      !Exceeds(now - startTime, Get(options, "buildTimeout")) && Settle(reply).Resolved? &&
      Observe(Settle(reply).value).Resolved? &&
      Observe(Settle(reply).value).value.status == s && IsFailureStatus(s)
  {
  }

  /** What iteration i of the loop observes: the settlement of its predicate
      call, whether that call found the deadline passed (and so sent no
      status request), and the message its status response shows. */
  datatype Iteration = Iteration(verdict: Settled<bool, Error>, late: bool, shown: Option<JsValue>)

  /** The settlement of the predicate call of iteration i: it reads the
      clock for the (i + 1)-th time and gets the i-th reply. */
  function Verdict(options: map<string, JsValue>, clock: int -> int, replies: seq<Reply>, i: nat): Settled<bool, Error>
  {
    Check(options, clock(0), clock(i + 1), ReplyAt(replies, i))
  }

  /** Iteration i finds the deadline passed. */
  predicate TimedOut(options: map<string, JsValue>, clock: int -> int, i: nat) {
    Exceeds(clock(i + 1) - clock(0), Get(options, "buildTimeout"))
  }

  /** The message a reply shows, when the loop gets as far as reading it. */
  function MessageOf(reply: Reply): Option<JsValue>
  {
    match Settle(reply)
    case Resolved(d) => (match Observe(d) case Resolved(info) => Some(info.message) case _ => None)
    case _ => None
  }

  /** The iterations the loop can reach: one per reply, and one more whose
      request is never answered. */
  function Iterations(options: map<string, JsValue>, clock: int -> int, replies: seq<Reply>): (r: seq<Iteration>)
    ensures |r| == |replies| + 1
    ensures forall i :: 0 <= i < |r| ==>
      r[i] == Iteration(Verdict(options, clock, replies, i), TimedOut(options, clock, i), MessageOf(ReplyAt(replies, i)))
  {
    seq(|replies| + 1, i requires 0 <= i =>
      Iteration(Verdict(options, clock, replies, i), TimedOut(options, clock, i), MessageOf(ReplyAt(replies, i))))
  }

  /** What the iterations of a real run have in common: an iteration that
      finds the deadline passed rejects with `build timeout`, and the last
      one, whose request is never answered, does not let the loop go round. */
  predicate Coherent(its: seq<Iteration>) {
    |its| > 0 && its[|its| - 1].verdict != Resolved(true) &&
    forall i :: 0 <= i < |its| && its[i].late ==> its[i].verdict == Rejected(BuildTimeout)
  }

  lemma IterationsCoherent(options: map<string, JsValue>, clock: int -> int, replies: seq<Reply>)
    ensures Coherent(Iterations(options, clock, replies))
  {
    var its := Iterations(options, clock, replies);
    assert its[|replies|].verdict == Verdict(options, clock, replies, |replies|);
  }

  /** The settlements of the successive predicate calls. */
  function Verdicts(its: seq<Iteration>): (r: seq<Settled<bool, Error>>)
    ensures |r| == |its| && forall i :: 0 <= i < |its| ==> r[i] == its[i].verdict
  {
    seq(|its|, i requires 0 <= i < |its| => its[i].verdict)
  }

  /** The body of the loop, a `setTimeout` of `pollInterval`, always resolves. */
  function Sleeps(n: nat): (r: seq<Settled<(), Error>>)
    ensures |r| == n && forall i :: 0 <= i < n ==> r[i] == Resolved(())
  {
    seq(n, _ => Resolved(()))
  }

  function IsTrue(b: bool): bool { b }

  /** The first n iterations each saw a non-terminal status within the
      deadline, and slept. */
  predicate Polled(options: map<string, JsValue>, clock: int -> int, replies: seq<Reply>, n: nat) {
    n <= |replies| && forall j :: 0 <= j < n ==> Verdict(options, clock, replies, j) == Resolved(true)
  }

  /** The messages shown in the first k iterations. */
  function Messages(its: seq<Iteration>, k: nat): seq<JsValue>
    requires k <= |its|
    decreases k
  {
    if k == 0 then []
    else Messages(its, k - 1) + (match its[k - 1].shown case Some(m) => [m] case None => [])
  }

  /** The last message seen, `prev` before any. */
  function Last(prev: JsValue, ms: seq<JsValue>): JsValue
  {
    if ms == [] then prev else ms[|ms| - 1]
  }

  /** The messages logged for the messages `ms` seen in order, the last one
      seen before them being `prev`: each one that differs from the one just
      before it. */
  function Logged(prev: JsValue, ms: seq<JsValue>): seq<JsValue>
    decreases |ms|
  {
    if ms == [] then []
    else
      var init := ms[..|ms| - 1];
      Logged(prev, init) + (if StrictEquals(Last(prev, init), ms[|ms| - 1]) then [] else [ms[|ms| - 1]])
  }

  /** The last message seen after `a` then `b`. */
  lemma LastAppend(prev: JsValue, a: seq<JsValue>, b: seq<JsValue>)
    ensures Last(prev, a + b) == Last(Last(prev, a), b)
  {
  }

  /** Logging is incremental: logging `a` then `b` writes what logging `a`
      writes, then what logging `b` writes after the last message of `a`. */
  lemma {:induction false} LoggedAppend(prev: JsValue, a: seq<JsValue>, b: seq<JsValue>)
    ensures Logged(prev, a + b) == Logged(prev, a) + Logged(Last(prev, a), b)
    decreases |b|
  {
    if b == [] {
      assert a + b == a;
    } else {
      var b' := b[..|b| - 1];
      var m := b[|b| - 1];
      assert (a + b)[..|a + b| - 1] == a + b';
      assert (a + b)[|a + b| - 1] == m;
      LoggedAppend(prev, a, b');
      LastAppend(prev, a, b');
    }
  }

  /** The last message seen is the last one logged, or `prev`. */
  lemma {:induction false} LastLogged(prev: JsValue, ms: seq<JsValue>)
    ensures Last(prev, Logged(prev, ms)) == Last(prev, ms)
    decreases |ms|
  {
    if ms != [] {
      LastLogged(prev, ms[..|ms| - 1]);
    }
  }

  /** No line is `===` the one just before it (nor the first one `prev`). */
  predicate NoRepeats(prev: JsValue, ls: seq<JsValue>) {
    (|ls| > 0 ==> !StrictEquals(prev, ls[0])) &&
    forall k :: 0 < k < |ls| ==> !StrictEquals(ls[k - 1], ls[k])
  }

  /** The log never writes a message twice in a row. */
  lemma {:induction false} LoggedNoRepeats(prev: JsValue, ms: seq<JsValue>)
    ensures NoRepeats(prev, Logged(prev, ms))
    decreases |ms|
  {
    if ms != [] {
      var init := ms[..|ms| - 1];
      LoggedNoRepeats(prev, init);
      LastLogged(prev, init);
    }
  }

  /** Messages without repeats are all logged. */
  lemma {:induction false} LoggedKeepsDistinct(prev: JsValue, ms: seq<JsValue>)
    requires NoRepeats(prev, ms)
    ensures Logged(prev, ms) == ms
    decreases |ms|
  {
    if ms != [] {
      var init := ms[..|ms| - 1];
      assert NoRepeats(prev, init);
      LoggedKeepsDistinct(prev, init);
      assert ms == init + [ms[|ms| - 1]];
    }
  }

  /** Filtering repeats twice filters nothing more. */
  lemma LoggedIdempotent(prev: JsValue, ms: seq<JsValue>)
    ensures Logged(prev, Logged(prev, ms)) == Logged(prev, ms)
  {
    LoggedNoRepeats(prev, ms);
    LoggedKeepsDistinct(prev, Logged(prev, ms));
  }

  /** A message shown again after a different message is logged again:
      only the message just before counts, not whether it was seen earlier. */
  lemma ShownAgainLogged(prev: JsValue, a: seq<JsValue>, m: JsValue, b: seq<JsValue>)
    ensures |b| > 0 && !StrictEquals(b[|b| - 1], m) ==>
      Logged(prev, a + [m] + b + [m]) == Logged(prev, a + [m] + b) + [m]
  {
    var s := a + [m] + b;
    assert (s + [m])[..|s + [m]| - 1] == s;
    if |b| > 0 {
      assert Last(prev, s) == b[|b| - 1];
    }
  }

  /** A message shown twice in a row is logged once; an object message,
      never `===` to anything seen before, is logged every time it is shown. */
  lemma RepeatSuppressed(prev: JsValue, a: seq<JsValue>, m: JsValue, b: seq<JsValue>)
    ensures !m.Obj? ==> Logged(prev, a + [m, m] + b) == Logged(prev, a + [m] + b)
    ensures m.Obj? ==> Logged(prev, a + [m, m]) == Logged(prev, a) + [m, m]
  {
    var once, twice := a + [m], a + [m, m];
    assert twice[..|twice| - 1] == once;
    assert once[..|once| - 1] == a;
    assert a + [m, m] + b == twice + b;
    assert a + [m] + b == once + b;
    LoggedAppend(prev, twice, b);
    LoggedAppend(prev, once, b);
  }

  /** The progress log of the loop: the lines written so far and the
      message seen last (`lastMessage`). */
  datatype LogState = LogState(lines: seq<JsValue>, last: JsValue)

  /** The log after one status response showing `shown`: a message is
      written when it is not `===` the one seen before it. */
  function Record(log: LogState, shown: Option<JsValue>): LogState
  {
    match shown
    case None => log
    case Some(m) => LogState(log.lines + (if StrictEquals(log.last, m) then [] else [m]), m)
  }

  /** What one run of the loop does: how it settles, how many status
      requests it sends and sleeps it takes, and what it logs. */
  datatype PollRun = PollRun(outcome: Settled<bool, Error>, fetches: nat, sleeps: nat, logged: seq<JsValue>)

  /** The run of the loop from iteration i on, with the log as it stands
      before that iteration. Iteration i sends its status request unless the
      deadline has passed, and goes round again only on a non-terminal
      status. */
  function PollFrom(its: seq<Iteration>, i: nat, log: LogState): (r: PollRun)
    requires i < |its|
    ensures i <= r.sleeps < |its|
    decreases |its| - i
  {
    var it := its[i];
    if it.late then PollRun(it.verdict, i, i, log.lines)
    else
      var next := Record(log, it.shown);
      if it.verdict == Resolved(true) && i + 1 < |its| then PollFrom(its, i + 1, next)
      else PollRun(it.verdict, i + 1, i, next.lines)
  }

  /** The whole run of `_waitUntilBuildComplete` against these replies. */
  function PollSpec(options: map<string, JsValue>, clock: int -> int, replies: seq<Reply>): PollRun
  {
    PollFrom(Iterations(options, clock, replies), 0, LogState([], Null))
  }

  /** One iteration of the loop, as `CheckOnce` reports it, either goes round
      again with the log it leaves, or ends the run with the predicate's
      settlement. */
  lemma PollStep(its: seq<Iteration>, i: nat, log: LogState, verdict: Settled<bool, Error>, fetched: bool, next: LogState)
    requires Coherent(its) && i < |its|
    requires its[i].verdict == verdict && its[i].late == !fetched
    requires next == if fetched then Record(log, its[i].shown) else log
    ensures verdict == Resolved(true) ==>
      i + 1 < |its| && fetched && PollFrom(its, i, log) == PollFrom(its, i + 1, next)
    ensures verdict != Resolved(true) ==>
      PollFrom(its, i, log) == PollRun(verdict, if fetched then i + 1 else i, i, next.lines)
  {
  }

  /** The run from iteration i stops at the first iteration that does not
      see a non-terminal status, with that iteration's settlement, never a
      truthy one; that iteration sends its request unless it is late. */
  lemma {:induction false} PollFromStops(its: seq<Iteration>, i: nat, log: LogState)
    requires Coherent(its) && i < |its|
    ensures var r := PollFrom(its, i, log);
      (forall j :: i <= j < r.sleeps ==> its[j].verdict == Resolved(true)) &&
      r.outcome == its[r.sleeps].verdict && r.outcome != Resolved(true) &&
      r.fetches == (if its[r.sleeps].late then r.sleeps else r.sleeps + 1)
    decreases |its| - i
  {
    if !its[i].late && its[i].verdict == Resolved(true) && i + 1 < |its| {
      PollFromStops(its, i + 1, Record(log, its[i].shown));
    }
  }

  /** Conversely, a run from i that sees non-terminal statuses up to n and
      something else at n stops at n. */
  lemma {:induction false} PollFromStopsAt(its: seq<Iteration>, i: nat, log: LogState, n: nat)
    requires Coherent(its) && i <= n < |its|
    requires forall j :: i <= j < n ==> its[j].verdict == Resolved(true)
    requires its[n].verdict != Resolved(true)
    ensures PollFrom(its, i, log).sleeps == n
    decreases n - i
  {
    if i < n {
      assert its[i].verdict == Resolved(true);
      PollFromStopsAt(its, i + 1, Record(log, its[i].shown), n);
    }
  }

  /** Every run ends after polling on n times, with the settlement of
      iteration n, which is never a truthy value: the loop resolves only with
      `false` (COMPLETE). Iteration n sends a status request unless it finds
      the deadline passed. */
  lemma PollEnds(options: map<string, JsValue>, clock: int -> int, replies: seq<Reply>)
    ensures var r := PollSpec(options, clock, replies);
      Polled(options, clock, replies, r.sleeps) &&
      r.outcome == Verdict(options, clock, replies, r.sleeps) && r.outcome != Resolved(true) &&
      r.fetches == (if TimedOut(options, clock, r.sleeps) then r.sleeps else r.sleeps + 1)
  {
    var its := Iterations(options, clock, replies);
    IterationsCoherent(options, clock, replies);
    PollFromStops(its, 0, LogState([], Null));
  }

  /** The run ends with v, other than `true`, exactly when some iteration
      settles with v after every earlier one polled on; the run stops there. */
  lemma PollResult(options: map<string, JsValue>, clock: int -> int, replies: seq<Reply>, v: Settled<bool, Error>)
    requires v != Resolved(true)
    ensures PollSpec(options, clock, replies).outcome == v <==>
      exists n :: 0 <= n <= |replies| && Polled(options, clock, replies, n) && Verdict(options, clock, replies, n) == v
    ensures forall n :: 0 <= n <= |replies| && Polled(options, clock, replies, n) && Verdict(options, clock, replies, n) == v ==>
      PollSpec(options, clock, replies).sleeps == n
  {
    var its := Iterations(options, clock, replies);
    var r := PollSpec(options, clock, replies);
    PollEnds(options, clock, replies);
    IterationsCoherent(options, clock, replies);
    forall n | 0 <= n <= |replies| && Polled(options, clock, replies, n) && Verdict(options, clock, replies, n) == v
      ensures r.sleeps == n
    {
      PollFromStopsAt(its, 0, LogState([], Null), n);
    }
  }

  /** `build timeout` is the result exactly when some iteration, reached by
      polling on, finds the deadline passed; that iteration sends no status
      request, so the run sends one request per sleep. */
  lemma TimeoutIff(options: map<string, JsValue>, clock: int -> int, replies: seq<Reply>)
    ensures PollSpec(options, clock, replies).outcome == Rejected(BuildTimeout) <==>
      exists n :: 0 <= n <= |replies| && Polled(options, clock, replies, n) && TimedOut(options, clock, n)
    ensures PollSpec(options, clock, replies).outcome == Rejected(BuildTimeout) ==>
      PollSpec(options, clock, replies).fetches == PollSpec(options, clock, replies).sleeps
  {
    PollResult(options, clock, replies, Rejected(BuildTimeout));
    PollEnds(options, clock, replies);
  }

  /** The loop waits forever exactly when, within the deadline, a status
      request it reached is never answered: there is no timeout on a request
      in flight. */
  lemma HangsIff(options: map<string, JsValue>, clock: int -> int, replies: seq<Reply>)
    ensures PollSpec(options, clock, replies).outcome.Pending? <==>
      exists n :: 0 <= n <= |replies| && Polled(options, clock, replies, n) &&
        !TimedOut(options, clock, n) && ReplyAt(replies, n).NoAnswer?
  {
    PollResult(options, clock, replies, Pending);
  }

  /** The status reply is read as a `BuildInfo` showing status s. */
  predicate ShowsStatus(reply: Reply, s: JsValue) {
    Settle(reply).Resolved? && Observe(Settle(reply).value).Resolved? && Observe(Settle(reply).value).value.status == s
  }

  /** The loop resolves (with `false`) exactly when, within the deadline and
      after polling on, a status response shows COMPLETE. */
  lemma CompleteIff(options: map<string, JsValue>, clock: int -> int, replies: seq<Reply>)
    ensures PollSpec(options, clock, replies).outcome == Resolved(false) <==>
      exists n :: 0 <= n < |replies| && Polled(options, clock, replies, n) &&
        !TimedOut(options, clock, n) && ShowsStatus(replies[n], COMPLETE)
  {
    PollResult(options, clock, replies, Resolved(false));
    forall n | 0 <= n <= |replies|
      ensures Verdict(options, clock, replies, n) == Resolved(false) <==>
        n < |replies| && !TimedOut(options, clock, n) && ShowsStatus(replies[n], COMPLETE)
    {
      CheckVerdicts(options, clock(0), clock(n + 1), ReplyAt(replies, n));
    }
  }

  /** The loop rejects with `Build failed: s` exactly when, within the
      deadline and after polling on, a status response shows the failure
      status s. */
  lemma FailedIff(options: map<string, JsValue>, clock: int -> int, replies: seq<Reply>, s: JsValue)
    ensures PollSpec(options, clock, replies).outcome == Rejected(BuildFailed(s)) <==>
      IsFailureStatus(s) &&
      exists n :: 0 <= n < |replies| && Polled(options, clock, replies, n) &&
        !TimedOut(options, clock, n) && ShowsStatus(replies[n], s)
  {
    PollResult(options, clock, replies, Rejected(BuildFailed(s)));
    forall n | 0 <= n <= |replies|
      ensures Verdict(options, clock, replies, n) == Rejected(BuildFailed(s)) <==>
        n < |replies| && !TimedOut(options, clock, n) && ShowsStatus(replies[n], s) && IsFailureStatus(s)
    {
      CheckVerdicts(options, clock(0), clock(n + 1), ReplyAt(replies, n));
    }
  }

  /** The `whilst` run over the iterations from i is `PollFrom`: the same
      settlement, one sleep per truthy predicate value, one predicate call
      more than sleeps. */
  lemma {:induction false} PollFromIsRunFrom(its: seq<Iteration>, i: nat, log: LogState)
    requires Coherent(its) && i < |its|
    ensures var preds := Verdicts(its);
      var t := Whilst.RunFrom(preds, Sleeps(|preds|), IsTrue, i);
      var r := PollFrom(its, i, log);
      r.outcome == t.result && r.sleeps == t.bodyCalls && t.predicateCalls == r.sleeps + 1
    decreases |its| - i
  {
    var preds := Verdicts(its);
    if !its[i].late && its[i].verdict == Resolved(true) && i + 1 < |its| {
      assert Whilst.BodyAt(Sleeps(|preds|), i) == Resolved(());
      PollFromIsRunFrom(its, i + 1, Record(log, its[i].shown));
    }
  }

  /** `_waitUntilBuildComplete` is `whilst` with the status check as
      predicate and a sleep as body. */
  lemma PollIsWhilst(options: map<string, JsValue>, clock: int -> int, replies: seq<Reply>)
    ensures var preds := Verdicts(Iterations(options, clock, replies));
      var t := Whilst.Evaluate(preds, Sleeps(|preds|), IsTrue);
      var r := PollSpec(options, clock, replies);
      r.outcome == t.result && r.sleeps == t.bodyCalls && t.predicateCalls == r.sleeps + 1
  {
    IterationsCoherent(options, clock, replies);
    PollFromIsRunFrom(Iterations(options, clock, replies), 0, LogState([], Null));
  }

  /** The log as it stands after the first k iterations. */
  function LogAfter(its: seq<Iteration>, k: nat): LogState
    requires k <= |its|
  {
    LogState(Logged(Null, Messages(its, k)), Last(Null, Messages(its, k)))
  }

  lemma RecordStep(its: seq<Iteration>, k: nat)
    requires k < |its|
    ensures Record(LogAfter(its, k), its[k].shown) == LogAfter(its, k + 1)
  {
    var before := Messages(its, k);
    match its[k].shown
    case Some(m) =>
      var after := before + [m];
      assert Messages(its, k + 1) == after;
      assert after[..|after| - 1] == before;
    case None =>
      assert Messages(its, k + 1) == before;
  }

  lemma {:induction false} PollFromLogged(its: seq<Iteration>, i: nat)
    requires i < |its|
    ensures var r := PollFrom(its, i, LogAfter(its, i));
      r.fetches <= |its| && r.logged == Logged(Null, Messages(its, r.fetches))
    decreases |its| - i
  {
    if !its[i].late {
      RecordStep(its, i);
      if its[i].verdict == Resolved(true) && i + 1 < |its| {
        PollFromLogged(its, i + 1);
      }
    }
  }

  /** What the loop logs is the sequence of messages shown by the status
      responses it received, with each run of repeats written once. */
  lemma PollLogged(options: map<string, JsValue>, clock: int -> int, replies: seq<Reply>)
    ensures var its := Iterations(options, clock, replies); var r := PollSpec(options, clock, replies);
      r.fetches <= |its| && r.logged == Logged(Null, Messages(its, r.fetches))
  {
    var its := Iterations(options, clock, replies);
    assert LogAfter(its, 0) == LogState([], Null);
    PollFromLogged(its, 0);
  }

  /** The predicate `whilst` calls in `_waitUntilBuildComplete`: the
      deadline check, the status request, the logging of a changed message
      and the switch on the status. Besides its verdict it reports whether it
      sent the request, and returns the log as it leaves it. */
  method CheckOnce(options: map<string, JsValue>, startTime: int, now: int, reply: Reply, log: LogState)
    returns (verdict: Settled<bool, Error>, fetched: bool, next: LogState)
    ensures verdict == Check(options, startTime, now, reply)
    ensures fetched <==> !Exceeds(now - startTime, Get(options, "buildTimeout"))
    ensures next == if fetched then Record(log, MessageOf(reply)) else log
  {
    next := log;
    if Exceeds(now - startTime, Get(options, "buildTimeout")) {
      return Rejected(BuildTimeout), false, next;
    }
    fetched := true;
    var response := Settle(reply);
    if !response.Resolved? {
      return Propagate(response), fetched, next;
    }
    var observed := Observe(response.value);
    if observed.Rejected? {
      return Rejected(observed.reason), fetched, next;
    }
    var info := observed.value;
    if !StrictEquals(next.last, info.message) {
      next := next.(lines := next.lines + [info.message]);
    }
    next := next.(last := info.message);
    if IsFailureStatus(info.status) {
      verdict := Rejected(BuildFailed(info.status));
    } else if info.status == COMPLETE {
      verdict := Resolved(false);
    } else {
      verdict := Resolved(true);
    }
  }

  /** `_waitUntilBuildComplete(buildNumber)`: `whilst` over `CheckOnce`,
      sleeping `pollInterval` between checks, with `startTime` and the log
      kept across iterations. */
  method WaitUntilBuildComplete(options: map<string, JsValue>, buildNumber: JsValue, clock: int -> int, replies: seq<Reply>)
    returns (run: PollRun, requests: seq<Request>)
    ensures run == PollSpec(options, clock, replies)
    ensures |requests| == run.fetches && forall k :: 0 <= k < |requests| ==> requests[k] == StatusRequest(buildNumber)
  {
    ghost var its := Iterations(options, clock, replies);
    IterationsCoherent(options, clock, replies);
    var startTime := clock(0);
    var log := LogState([], Null);
    var statusRequest := StatusRequest(buildNumber);
    requests := [];
    var i: nat := 0;
    while true
      invariant i < |its| && PollSpec(options, clock, replies) == PollFrom(its, i, log)
      invariant |requests| == i && forall k :: 0 <= k < |requests| ==> requests[k] == statusRequest
      decreases |its| - i
    {
      var verdict, fetched, next := CheckOnce(options, startTime, clock(i + 1), ReplyAt(replies, i), log);
      PollStep(its, i, log, verdict, fetched, next);
      if fetched {
        requests := requests + [statusRequest];
      }
      log := next;
      if verdict != Resolved(true) {
        return PollRun(verdict, |requests|, i, log.lines), requests;
      }
      // setTimeout(resolve, pollInterval)
      i := i + 1;
    }
  }
}
