/** Concrete runs of the protocol: the build-output filter on a two-file
    stream, a build that completes after two sleeps, a build that never
    finishes before its deadline, and a build that fails at once. The clock
    is given by the readings the loop takes. */
module Scenarios {
  import opened Js
  import opened Transport
  import opened Polling
  import TacoRemoteClient
  import GulpRemoteBuild

  /** A 200 JSON status response `{ status, message }`. */
  function StatusReply(status: JsValue, message: string): (r: Reply)
    ensures ShowsStatus(r, status) && MessageOf(r) == Some(Str(message))
  {
    Answer(Response(200, Some("application/json; charset=utf-8"),
                    Body("", Some(Obj(map["status" := status, "message" := Str(message)])))))
  }

  /** `bin/app.apk` lies in an excluded directory. */
  lemma BinExcluded(file: GulpRemoteBuild.VinylFile)
    requires file.relative == "bin/app.apk" && !file.isNull
    ensures GulpRemoteBuild.EntryOf(file).None?
  {
    var name := GulpRemoteBuild.Filename(file.relative, false);
    assert name == "bin/app.apk";
    GulpRemoteBuild.FirstSegmentIs(name, "bin");
    assert name[..4] == "bin/";
  }

  /** The archive name of `www\\a.js` uses `/`. */
  lemma WwwName(file: GulpRemoteBuild.VinylFile)
    requires file.relative == "www\\a.js" && !file.isNull
    ensures GulpRemoteBuild.Filename(file.relative, file.isNull) == "www/a.js"
  {
  }

  /** `www/a.js` lies outside the excluded directories. */
  lemma WwwKept()
    ensures !GulpRemoteBuild.Excluded("www/a.js")
  {
    GulpRemoteBuild.ExcludedIff("www/a.js");
    assert "www/a.js"[..4] == "www/";
  }

  /** `www\\a.js` is archived as `cordova-app/www/a.js`. */
  lemma WwwIncluded(file: GulpRemoteBuild.VinylFile)
    requires file.relative == "www\\a.js" && !file.isNull
    ensures GulpRemoteBuild.EntryOf(file) ==
      Some(GulpRemoteBuild.ArchiveEntry("cordova-app/www/a.js", file.contents, file.mtime))
  {
    WwwName(file);
    WwwKept();
    assert GulpRemoteBuild.ROOT + "www/a.js" == "cordova-app/www/a.js";
  }

  /** Of a stream of `bin/app.apk` and `www\\a.js`, only the second is
      archived, and the count is one. */
  lemma OneOfTwoArchived(excluded: GulpRemoteBuild.VinylFile, included: GulpRemoteBuild.VinylFile)
    requires excluded.relative == "bin/app.apk" && !excluded.isNull
    requires included.relative == "www\\a.js" && !included.isNull
    ensures GulpRemoteBuild.Archived([excluded, included]) ==
      [GulpRemoteBuild.ArchiveEntry("cordova-app/www/a.js", included.contents, included.mtime)]
    ensures GulpRemoteBuild.IncludedCount([excluded, included]) == 1
  {
    BinExcluded(excluded);
    WwwIncluded(included);
    GulpRemoteBuild.ArchivedAppend([], excluded);
    GulpRemoteBuild.ArchivedAppend([excluded], included);
    GulpRemoteBuild.ArchivedEntries([excluded, included]);
  }

  /** Two non-terminal statuses then COMPLETE, with `buildTimeout` 1000 and
      readings 10 apart: three status requests, two sleeps, success; the
      message shown twice in a row is logged once. */
  lemma TwoSleepsThenComplete(clock: int -> int)
    requires clock(0) == 0 && clock(1) == 10 && clock(2) == 20 && clock(3) == 30
    ensures var replies := [StatusReply(Str("Building"), "building"), StatusReply(Str("Building"), "building"),
                            StatusReply(COMPLETE, "done")];
      PollSpec(map["buildTimeout" := Num(1000)], clock, replies) ==
        PollRun(Resolved(false), 3, 2, [Str("building"), Str("done")])
  {
    var options := map["buildTimeout" := Num(1000)];
    var replies := [StatusReply(Str("Building"), "building"), StatusReply(Str("Building"), "building"),
                    StatusReply(COMPLETE, "done")];
    var its := Iterations(options, clock, replies);
    var l0 := LogState([], Null);
    var l1 := LogState([Str("building")], Str("building"));
    var l2 := LogState([Str("building"), Str("done")], Str("done"));
    assert its[0] == Iteration(Resolved(true), false, Some(Str("building")));
    assert its[1] == Iteration(Resolved(true), false, Some(Str("building")));
    assert its[2] == Iteration(Resolved(false), false, Some(Str("done")));
    assert Record(l0, its[0].shown) == l1;
    assert Record(l1, its[1].shown) == l1;
    assert Record(l1, its[2].shown) == l2;
    assert PollFrom(its, 2, l1) == PollRun(Resolved(false), 3, 2, l2.lines);
    assert PollFrom(its, 1, l1) == PollFrom(its, 2, l1);
    assert PollFrom(its, 0, l0) == PollFrom(its, 1, l1);
  }

  /** A build that stays non-terminal, with `buildTimeout` 50 and readings
      10 apart, the first check reading the clock 10 ms after `startTime`
      (a sleep-free first check would read 0 and poll once more): the
      iteration that finds exactly 50 ms elapsed still polls (the test is a
      strict `>`), the next one finds 60 ms and rejects with `build timeout`
      without a request: five requests, five sleeps. */
  lemma NeverCompleteTimesOut(clock: int -> int)
    requires forall i :: 0 <= i <= 6 ==> clock(i) == 10 * i
    ensures var replies := seq(6, _ => StatusReply(Str("Building"), "building"));
      var r := PollSpec(map["buildTimeout" := Num(50)], clock, replies);
      r.outcome == Rejected(BuildTimeout) && r.fetches == 5 && r.sleeps == 5
  {
    var options := map["buildTimeout" := Num(50)];
    var replies := seq(6, _ => StatusReply(Str("Building"), "building"));
    forall j | 0 <= j < 5 ensures Verdict(options, clock, replies, j) == Resolved(true) {
      assert clock(j + 1) - clock(0) <= 50;
      assert ShowsStatus(replies[j], Str("Building"));
    }
    assert Polled(options, clock, replies, 5);
    assert clock(6) - clock(0) == 60;
    assert TimedOut(options, clock, 5);
    PollResult(options, clock, replies, Rejected(BuildTimeout));
    PollEnds(options, clock, replies);
  }

  /** The first status is ERROR, read within the deadline: the loop
      rejects with `Build failed: ERROR` after one status request and no
      sleep. */
  lemma ErrorAtOnce(options: map<string, JsValue>, clock: int -> int)
    requires !Exceeds(clock(1) - clock(0), Get(options, "buildTimeout"))
    ensures var poll := PollSpec(options, clock, [StatusReply(ERROR, "failed")]);
      poll.outcome == Rejected(BuildFailed(ERROR)) && poll.fetches == 1 && poll.sleeps == 0
  {
    var replies := [StatusReply(ERROR, "failed")];
    assert Verdict(options, clock, replies, 0) == Rejected(BuildFailed(ERROR));
    assert Polled(options, clock, replies, 0);
    PollResult(options, clock, replies, Rejected(BuildFailed(ERROR)));
    PollEnds(options, clock, replies);
  }

  /** After such a failure (one status request, then `Build failed`; see
      `ErrorAtOnce`) the taco client's `build` sends exactly one more
      request, for the log of the same build; when the log downloads,
      `build` resolves with `undefined`. */
  lemma FailsAtOnce(options: map<string, JsValue>, n: JsValue, poll: PollRun, log: Decoded)
    requires poll.outcome == Rejected(BuildFailed(ERROR)) && poll.fetches == 1
    ensures TacoRemoteClient.BuildSpec(options, Resolved(n), poll, Resolved(log)) ==
      Run(Resolved(Undefined), [SubmitRequest(options), StatusRequest(n), LogRequest(n)])
  {
    TacoRemoteClient.BuildRequests(options, n, poll, _ => TacoRemoteClient.Recover(Resolved(log)));
    assert StatusRequests(n, 1) == [StatusRequest(n)];
  }
}
