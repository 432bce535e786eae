/** `TacoRemoteClient`: the same protocol as `RemoteBuildClient`, split
    differently. `build` submits and waits, resolving with the build number,
    and on a failed wait fetches the build log once as a diagnostic;
    `buildWorkflow` then downloads the artifact and the log of the build
    number `build` resolved with. The client keeps only its options, which
    it never changes. */
module TacoRemoteClient {
  import opened Js
  import opened Transport
  import opened Polling

  /** The replies the server gives, in the order the client sends its
      requests: the submission, the status requests, the diagnostic log
      download after a failed wait, the artifact download and the log
      download. */
  datatype Network = Network(submit: Reply, statuses: seq<Reply>, errorLog: Reply, download: Reply, log: Reply)

  /** `_waitUntilBuildComplete(buildNumber)`: the poll loop, then
      `.then(() => buildNumber)`. */
  function WaitResult(poll: PollRun, buildNumber: JsValue): (r: Settled<JsValue, Error>)
  {
    if poll.outcome.Resolved? then Resolved(buildNumber) else Propagate(poll.outcome)
  }

  /** The wait resolves with the very build number it was given, exactly when
      the loop resolves; a failure of the loop is its failure. */
  lemma WaitReturnsBuildNumber(poll: PollRun, buildNumber: JsValue)
    ensures forall v :: WaitResult(poll, buildNumber) == Resolved(v) <==> poll.outcome.Resolved? && v == buildNumber
    ensures forall e :: WaitResult(poll, buildNumber) == Rejected(e) <==> poll.outcome == Rejected(e)
    ensures WaitResult(poll, buildNumber).Pending? <==> poll.outcome.Pending?
  {
  }

  /** The `.catch` of `build` as written: after a failed wait it downloads
      the log; when that succeeds, the log is written to `taco-error.log`
      and the handler returns nothing, so the chain resolves with
      `undefined` (the rejection inside the `writeFile` callback never
      reaches the chain: it is an unhandled rejection, which the model does
      not follow); when it fails, its error replaces the original. */
  function Recover(logged: Settled<Decoded, Error>): Settled<JsValue, Error>
  {
    match logged
    case Resolved(_) => Resolved(Undefined)
    case Rejected(e) => Rejected(e)
    case Pending => Pending
  }

  /** The `.catch` of `build` as evidently intended: after the log is
      written, reject with the write error if there was one, else with the
      original error. `written` is the outcome of `fs.writeFile`. */
  function RecoverCorrected(err: Error, logged: Settled<Decoded, Error>, written: Option<Error>): Settled<JsValue, Error>
  {
    match logged
    case Resolved(_) => Rejected(if written.Some? then written.value else err)
    case Rejected(e) => Rejected(e)
    case Pending => Pending
  }

  /** `build(gzip)`: the submission yields `submitted`, the loop runs as
      `poll`, and after a failed wait the diagnostic log download settles as
      `logged` and is handled by `recover`. */
  function BuildWith(options: map<string, JsValue>, submitted: Settled<JsValue, Error>, poll: PollRun,
                     recover: Error -> Settled<JsValue, Error>): Run<JsValue>
  {
    if !submitted.Resolved? then Run(Propagate(submitted), [SubmitRequest(options)])
    else
      var n := submitted.value;
      var polled := [SubmitRequest(options)] + StatusRequests(n, poll.fetches);
      var waited := WaitResult(poll, n);
      if waited.Rejected? then Run(recover(waited.reason), polled + [LogRequest(n)])
      else Run(waited, polled)
  }

  /** `build(gzip)` as written. */
  function BuildSpec(options: map<string, JsValue>, submitted: Settled<JsValue, Error>, poll: PollRun,
                     logged: Settled<Decoded, Error>): Run<JsValue>
  {
    BuildWith(options, submitted, poll, _ => Recover(logged))
  }

  /** `build(gzip)` with the corrected fallback. */
  function BuildCorrected(options: map<string, JsValue>, submitted: Settled<JsValue, Error>, poll: PollRun,
                          logged: Settled<Decoded, Error>, written: Option<Error>): Run<JsValue>
  {
    BuildWith(options, submitted, poll, err => RecoverCorrected(err, logged, written))
  }

  /** Whatever the fallback does, `build` sends the submission, one status
      request per fetch of the loop, and after a failed wait exactly one
      more request: the log of the same build. */
  lemma BuildRequests(options: map<string, JsValue>, n: JsValue, poll: PollRun,
                      recover: Error -> Settled<JsValue, Error>)
    ensures BuildWith(options, Resolved(n), poll, recover).requests ==
      [SubmitRequest(options)] + StatusRequests(n, poll.fetches) + (if poll.outcome.Rejected? then [LogRequest(n)] else [])
    ensures LogRequest(n) !in [SubmitRequest(options)] + StatusRequests(n, poll.fetches)
  {
    EndpointsDistinct(options, n);
    var rs := [SubmitRequest(options)] + StatusRequests(n, poll.fetches);
    assert rs + [] == rs;
  }

  /** Finding, as written: a build that fails (here: the loop rejects with
      any error) while its log downloads resolves with `undefined`, as if it
      had succeeded. */
  lemma FailedBuildResolves(options: map<string, JsValue>, n: JsValue, poll: PollRun, d: Decoded)
    requires poll.outcome.Rejected?
    ensures BuildSpec(options, Resolved(n), poll, Resolved(d)).result == Resolved(Undefined)
  {
  }

  /** As written, in full: a failed or unanswered submission is `build`'s
      own settlement; `build` resolves with the build number when the wait
      succeeds and hangs when the wait never settles; after a failed wait it
      either resolves with `undefined` (the log was fetched) or rejects with
      the log download's own error. The wait's `Build failed` or `build
      timeout` error never reaches `build`'s promise. */
  lemma AsWrittenOutcome(options: map<string, JsValue>, submitted: Settled<JsValue, Error>, poll: PollRun,
                         logged: Settled<Decoded, Error>)
    ensures var r := BuildSpec(options, submitted, poll, logged).result;
      (forall v :: r == Resolved(v) <==>
         submitted.Resolved? &&
         ((poll.outcome.Resolved? && v == submitted.value) ||
          (poll.outcome.Rejected? && logged.Resolved? && v == Undefined)))
    ensures var r := BuildSpec(options, submitted, poll, logged).result;
      submitted.Resolved? && poll.outcome.Rejected? ==>
        match logged
        case Resolved(_) => r == Resolved(Undefined)
        case Rejected(e) => r == Rejected(e)
        case Pending => r.Pending?
    ensures submitted.Resolved? && poll.outcome.Resolved? ==>
      forall l :: BuildSpec(options, submitted, poll, l).result == submitted
    ensures !submitted.Resolved? ==> BuildSpec(options, submitted, poll, logged).result == submitted
    ensures submitted.Resolved? && poll.outcome.Pending? ==> BuildSpec(options, submitted, poll, logged).result.Pending?
  {
  }

  /** Corrected: `build` resolves exactly when the submission and the wait
      succeed, and then with the submitted build number; a failed wait
      always rejects once the log download settles: with the write error,
      else the original error, or the log download's own error. */
  lemma CorrectedBuildOutcome(options: map<string, JsValue>, submitted: Settled<JsValue, Error>, poll: PollRun,
                              logged: Settled<Decoded, Error>, written: Option<Error>)
    ensures var r := BuildCorrected(options, submitted, poll, logged, written).result;
      (forall v :: r == Resolved(v) <==> submitted == Resolved(v) && poll.outcome.Resolved?)
    ensures var r := BuildCorrected(options, submitted, poll, logged, written).result;
      submitted.Resolved? && poll.outcome.Rejected? ==>
        match logged
        case Resolved(_) => r == Rejected(if written.Some? then written.value else poll.outcome.reason)
        case Rejected(e) => r == Rejected(e)
        case Pending => r.Pending?
  {
  }

  /** `build(gzip)` against the server's replies, as written: submission,
      the poll loop, and the diagnostic log download after a failed wait. */
  method Build(options: map<string, JsValue>, clock: int -> int, net: Network) returns (run: Run<JsValue>)
    ensures run == BuildSpec(options, BuildNumberOf(net.submit), PollSpec(options, clock, net.statuses), Settle(net.errorLog))
  {
    var submit, submitted := SubmitRequest(options), BuildNumberOf(net.submit);
    if !submitted.Resolved? {
      return Run(Propagate(submitted), [submit]);
    }
    var buildNumber := submitted.value;
    var poll, statusRequests := WaitUntilBuildComplete(options, buildNumber, clock, net.statuses);
    assert statusRequests == StatusRequests(buildNumber, poll.fetches);
    var requests := [submit] + statusRequests;
    var waited := WaitResult(poll, buildNumber);
    if waited.Rejected? {
      // downloadLog(buildNumber).then(log => fs.writeFile('taco-error.log', log, ...))
      var logged := Settle(net.errorLog);
      return Run(Recover(logged), requests + [LogRequest(buildNumber)]);
    }
    return Run(waited, requests);
  }

  /** `buildWorkflow(gzip)`: `build` settles as `built` after its requests,
      then the artifact and the log of the build number it resolved with are
      downloaded together. */
  function WorkflowSpec(built: Run<JsValue>, zip: Settled<Decoded, Error>, log: Settled<Decoded, Error>): Run<BuildOutput>
  {
    if !built.result.Resolved? then Run(Propagate(built.result), built.requests)
    else
      var n := built.result.value;
      Run(Downloads(zip, log), built.requests + [DownloadRequest(n), LogRequest(n)])
  }

  /** `buildWorkflow(gzip)` against the server's replies. */
  method BuildWorkflow(options: map<string, JsValue>, clock: int -> int, net: Network) returns (run: Run<BuildOutput>)
    ensures run == WorkflowSpec(
      BuildSpec(options, BuildNumberOf(net.submit), PollSpec(options, clock, net.statuses), Settle(net.errorLog)),
      Settle(net.download), Settle(net.log))
  {
    var built := Build(options, clock, net);
    if !built.result.Resolved? {
      return Run(Propagate(built.result), built.requests);
    }
    var buildNumber := built.result.value;
    var zip, log := Settle(net.download), Settle(net.log);
    return Run(Downloads(zip, log), built.requests + [DownloadRequest(buildNumber), LogRequest(buildNumber)]);
  }

  /** The workflow downloads the artifact and the log of the build number
      `build` resolved with, after everything `build` sent, and pairs them as
      `zip` (first) and `log`; it resolves exactly when `build` and both
      downloads do. */
  lemma WorkflowDownloads(built: Run<JsValue>, zip: Settled<Decoded, Error>, log: Settled<Decoded, Error>)
    ensures var r := WorkflowSpec(built, zip, log);
      r.result.Resolved? <==> built.result.Resolved? && zip.Resolved? && log.Resolved?
    ensures var r := WorkflowSpec(built, zip, log);
      r.result.Resolved? ==> r.result.value == BuildOutput(zip.value, log.value)
    ensures var r := WorkflowSpec(built, zip, log);
      built.result.Resolved? ==>
        r.requests[..|built.requests|] == built.requests &&
        r.requests[|built.requests|..] == [DownloadRequest(built.result.value), LogRequest(built.result.value)]
    ensures !built.result.Resolved? ==> WorkflowSpec(built, zip, log).requests == built.requests
  {
  }

  /** Finding, as written: when the wait fails but the diagnostic log
      downloads, the workflow goes on to request the artifact of build
      `undefined`. With the corrected `build` it stops with the failure. */
  lemma FailedBuildDownloadsUndefined(options: map<string, JsValue>, n: JsValue, poll: PollRun, d: Decoded,
                                      written: Option<Error>, zip: Settled<Decoded, Error>, log: Settled<Decoded, Error>)
    requires poll.outcome.Rejected?
    ensures DownloadRequest(Undefined) in WorkflowSpec(BuildSpec(options, Resolved(n), poll, Resolved(d)), zip, log).requests
    ensures WorkflowSpec(BuildCorrected(options, Resolved(n), poll, Resolved(d), written), zip, log).result.Rejected?
    ensures WorkflowSpec(BuildCorrected(options, Resolved(n), poll, Resolved(d), written), zip, log).requests ==
      BuildCorrected(options, Resolved(n), poll, Resolved(d), written).requests
  {
    var built := BuildSpec(options, Resolved(n), poll, Resolved(d));
    assert WorkflowSpec(built, zip, log).requests[|built.requests|] == DownloadRequest(Undefined);
  }
}
