/** `RemoteBuildClient`: submit the archive, poll until the build is
    COMPLETE, then download the artifact and the log together. The client
    keeps only its options, which it never changes, so its operations take
    them as a parameter. */
module RemoteBuildClient {
  import opened Js
  import opened Transport
  import opened Polling

  /** The replies the server gives, one per kind of request, in the order the
      client sends them: the submission, the status requests, the artifact
      download and the log download. */
  datatype Network = Network(submit: Reply, statuses: seq<Reply>, download: Reply, log: Reply)

  /** `build(gzip)`: `_callBuild` yields `submitted`, then the poll loop
      runs as `poll`, then both downloads settle as `zip` and `log`. */
  function BuildSpec(options: map<string, JsValue>, submitted: Settled<JsValue, Error>, poll: PollRun,
                     zip: Settled<Decoded, Error>, log: Settled<Decoded, Error>): Run<BuildOutput>
  {
    if !submitted.Resolved? then Run(Propagate(submitted), [SubmitRequest(options)])
    else
      var n := submitted.value;
      var polled := [SubmitRequest(options)] + StatusRequests(n, poll.fetches);
      if !poll.outcome.Resolved? then Run(Propagate(poll.outcome), polled)
      else Run(Downloads(zip, log), polled + [DownloadRequest(n), LogRequest(n)])
  }

  /** `build(gzip)` against the server's replies: the submission reply, the
      poll loop over the status replies, and the two download replies. */
  function BuildOf(options: map<string, JsValue>, clock: int -> int, net: Network): Run<BuildOutput>
  {
    BuildSpec(options, BuildNumberOf(net.submit), PollSpec(options, clock, net.statuses),
              Settle(net.download), Settle(net.log))
  }

  /** `build(gzip)` against the server's replies, step by step, reusing the
      poll loop. */
  method Build(options: map<string, JsValue>, clock: int -> int, net: Network) returns (run: Run<BuildOutput>)
    ensures run == BuildOf(options, clock, net)
  {
    var submit, submitted := SubmitRequest(options), BuildNumberOf(net.submit);
    if !submitted.Resolved? {
      return Run(Propagate(submitted), [submit]);
    }
    var buildNumber := submitted.value;
    var poll, statusRequests := WaitUntilBuildComplete(options, buildNumber, clock, net.statuses);
    assert statusRequests == StatusRequests(buildNumber, poll.fetches);
    var requests := [submit] + statusRequests;
    if !poll.outcome.Resolved? {
      return Run(Propagate(poll.outcome), requests);
    }
    var zip, log := Settle(net.download), Settle(net.log);
    requests := requests + [DownloadRequest(buildNumber), LogRequest(buildNumber)];
    return Run(Downloads(zip, log), requests);
  }

  /** Requests go out in protocol order: the submission first, then only
      status requests for the submitted build, one per fetch of the loop,
      then (only when the loop resolved, which it does only on COMPLETE, see
      `Polling.CompleteIff`) the artifact and the log downloads, last. A
      failed or unanswered submission sends nothing more. */
  lemma BuildOrder(options: map<string, JsValue>, submitted: Settled<JsValue, Error>, poll: PollRun,
                   zip: Settled<Decoded, Error>, log: Settled<Decoded, Error>)
    ensures !submitted.Resolved? ==> BuildSpec(options, submitted, poll, zip, log).requests == [SubmitRequest(options)]
    ensures submitted.Resolved? ==>
      var n := submitted.value;
      BuildSpec(options, submitted, poll, zip, log).requests ==
        [SubmitRequest(options)] + StatusRequests(n, poll.fetches) +
        (if poll.outcome.Resolved? then [DownloadRequest(n), LogRequest(n)] else [])
  {
    if submitted.Resolved? && !poll.outcome.Resolved? {
      var rs := [SubmitRequest(options)] + StatusRequests(submitted.value, poll.fetches);
      assert rs + [] == rs;
    }
  }

  /** The artifact of the submitted build is requested only once the loop
      has resolved. */
  lemma DownloadsOnlyAfterWait(options: map<string, JsValue>, n: JsValue, poll: PollRun,
                               zip: Settled<Decoded, Error>, log: Settled<Decoded, Error>)
    requires DownloadRequest(n) in BuildSpec(options, Resolved(n), poll, zip, log).requests
    ensures poll.outcome.Resolved?
  {
    EndpointsDistinct(options, n);
  }

  /** `build` resolves exactly when the submission yields a build number,
      the loop resolves and both downloads succeed; the result pairs the
      artifact (`zip`, the first download) with the log. */
  lemma BuildSucceeds(options: map<string, JsValue>, submitted: Settled<JsValue, Error>, poll: PollRun,
                      zip: Settled<Decoded, Error>, log: Settled<Decoded, Error>)
    ensures BuildSpec(options, submitted, poll, zip, log).result.Resolved? <==>
      submitted.Resolved? && poll.outcome.Resolved? && zip.Resolved? && log.Resolved?
    ensures BuildSpec(options, submitted, poll, zip, log).result.Resolved? ==>
      BuildSpec(options, submitted, poll, zip, log).result.value == BuildOutput(zip.value, log.value)
  {
  }

  /** The first failure decides: a failed submission, then a failed or timed
      out wait, then a failed download (the artifact's before the log's). */
  lemma BuildFailure(options: map<string, JsValue>, submitted: Settled<JsValue, Error>, poll: PollRun,
                     zip: Settled<Decoded, Error>, log: Settled<Decoded, Error>, e: Error)
    ensures submitted == Rejected(e) ==> BuildSpec(options, submitted, poll, zip, log).result == Rejected(e)
    ensures submitted.Resolved? && poll.outcome == Rejected(e) ==>
      BuildSpec(options, submitted, poll, zip, log).result == Rejected(e)
    ensures submitted.Resolved? && poll.outcome.Resolved? ==>
      (BuildSpec(options, submitted, poll, zip, log).result == Rejected(e) <==>
        zip == Rejected(e) || (!zip.Rejected? && log == Rejected(e)))
  {
  }
}
