# gulp-remotebuild: the remote-build protocol client, in Dafny

This project models the decision logic of `gulp-remotebuild`, a gulp plugin
that sends a Cordova project to a remote build server. The model covers these parts:

- **The gulp plugin** (`index.js`). It merges the user's options with the
  defaults and splits `host` into host name and port. It archives every incoming
  file under `cordova-app/`, except files in the build-output directories `bin`,
  `bld` and `platforms`, and counts the archived files. It reads the Cordova
  version from `taco.json`. On flush it runs the remote build, then pushes the
  build log as `taco.log` and each file extracted from the artifact.
- **The two protocol clients** (`lib/remoteBuildClient.js`,
  `lib/tacoRemoteClient.js`). Each has the same `_fetch`, which classifies an
  HTTP response by status code and content type. The workflow submits the
  archive (`POST build/tasks`), polls `build/tasks/<n>` until the build is
  COMPLETE, then downloads `build/<n>/download` and `build/tasks/<n>/log`
  together. The taco client splits this differently. Its `build` submits and
  waits, resolving with the build number. After a failed wait it fetches the
  log once as a diagnostic. Its `buildWorkflow` then does the downloads.
- **The poll loop** `_waitUntilBuildComplete`, shared by both clients. Before
  each status request it compares the time since the start with
  `buildTimeout`, using a strict `>`. It logs a progress message only when it
  differs from the message just before it. A failure status (ERROR,
  DOWNLOADED, INVALID) rejects, COMPLETE stops, and any other status sleeps
  and polls again.
- **`whilst`** (`lib/whilst.js`), the promise loop the poll loop runs on.

Network, clock and libraries are parameters. A promise is a `Settled` value:
resolved, rejected, or never settling (`Pending`). Each client's `Network`
record holds the server's reply to each kind of request the client sends:
one reply to the submission, one to each download, and a sequence of replies
to the status requests, the `i`-th for the `i`-th status request. A status
request past the end of that sequence is never answered (`Transport.ReplyAt`).
The clock is a function from the number of readings taken to the time read.
`clock(0)` is `startTime`, and `clock(i + 1)` is read at the head of
iteration `i`.

Some functions define the environment or JavaScript itself rather than the
program, and state nothing of their own: `Js.Get` (a property of a plain
object, `undefined` when missing), `Js.ToNumber` (the numeric conversion of a
relational comparison, NaN for `undefined` and objects), `Js.Propagate` (a
rejection passed along a promise chain), `Transport.ReplyAt` (the reply to a
status request), `Transport.StatusRequests` (`n` copies of the status
request of a build), and `Polling.Iterations`, `Polling.Verdicts` and
`Polling.Sleeps`, which lay out the poll loop's iterations from the clock and
the status replies. The properties of the program are stated about them in
the lemmas listed below.

The imperative parts
are methods with loops, each proved equal to a specification function:
`Whilst.Whilst`, `Polling.WaitUntilBuildComplete` and the emission loop of
the flush. The properties are proved as lemmas about those functions. The
plugin, which updates its state in place, is a class.

Modules: `Js` (values, rejection reasons, `Object.assign`, property reads,
string conversion), `Whilst`, `Transport` (`_fetch` and the endpoints),
`Polling`, `RemoteBuildClient`, `TacoRemoteClient`, `GulpRemoteBuild`
(`index.js`) and `Scenarios` (concrete runs).

Two behaviours of the code are worth stating up front:

- After a failed build whose log was fetched, the taco client's `build`
  resolves; see Findings.
- `index.js` implements the entry filter itself, so it is modelled.

## Model

| member | source | states |
|---|---|---|
| `Js.Assign` | index.js:27 | `Object.assign`: the keys are those of both maps. A key of the source takes the source's value, and any other key keeps the target's. |
| `Js.Digits` | lib/remoteBuildClient.js:87 | A natural number prints as a non-empty string of decimal digits. |
| `Js.ToStr` | lib/remoteBuildClient.js:87 | Template-literal conversion of a build number: a string is itself, and a non-negative number prints as digits that read back as that number. |
| `Js.DigitsRoundTrip` | lib/remoteBuildClient.js:87 | The decimal digits of a natural number read back as that number. |
| `Js.PropertyCases` | lib/remoteBuildClient.js:83 | A property read settles at once. It throws a TypeError exactly on `undefined` and `null`, and on an object it is the key's value, or `undefined` when the key is missing. |
| `Whilst.RunFrom` | lib/whilst.js:3-15 | A run from predicate call `i` makes more than `i` predicate calls. The body runs once per predicate call or one fewer. |
| `Whilst.Whilst` | lib/whilst.js:3-15 | The loop (predicate first, body once per truthy value) computes exactly the `whilst` run `Evaluate`. |
| `Whilst.SkipContinued` | lib/whilst.js:7-10 | After `k` complete rounds (truthy predicate, resolved body), the run is the run from predicate call `k`. |
| `Whilst.StopsAt` | lib/whilst.js:6-13 | After `k` complete rounds, a predicate call that is not truthy ends the run with its own settlement, after `k + 1` predicate calls and `k` body calls. |
| `Whilst.StopsFrom` | lib/whilst.js:3-15 | A run from a point reached after complete rounds consists of complete rounds up to its last predicate call, and is the run from that call. |
| `Whilst.StopsAtLastCall` | lib/whilst.js:3-15 | Every run consists of complete rounds up to its last predicate call, which (with the body after it) decides the result. |
| `Whilst.FalsyFirst` | lib/whilst.js:5-13 | A falsy first predicate value is the result, and the body never runs. |
| `Whilst.ResolvesToFirstFalsy` | lib/whilst.js:11-12 | The run resolves with `v` if and only if, after complete rounds, a predicate call returned the falsy `v`. That call is the last one, and the body ran once for each earlier call. |
| `Whilst.BodyOncePerTruthy` | lib/whilst.js:7-10 | The body runs for exactly the predicate calls that returned truthy values. Every body call before the last predicate call resolved before the predicate was called again. |
| `Whilst.RejectionPropagates` | lib/whilst.js:4-10 | Whichever of the predicate or the body rejects first ends the run with that reason, and no further call is made. Conversely, a rejection reached after complete rounds is the result. |
| `Transport.HundredsIsTwo` | lib/tacoRemoteClient.js:39 | `~~(status / 100) === 2` holds exactly for 200 <= status < 300. |
| `Transport.ClassifyCases` | lib/remoteBuildClient.js:31-49 | `Classify`: 201 resolves empty whatever the content type. Other 2xx statuses decode by content-type prefix: `application/json` as JSON (rejecting unparsable JSON), `text/plain` as text, anything else as the raw body. Every other status rejects with `server returned <status>`, and the response always settles. |
| `Transport.FetchInit` | lib/remoteBuildClient.js:27-30 | The fetch options hold `method`, GET unless the caller gave one. Every caller-supplied option overrides the defaults. |
| `Transport.SubmitRequest` | lib/remoteBuildClient.js:68-82 | The submission POSTs the archive stream to `build/tasks` with exactly the query keys `cfg`, `command=build`, `loglevel`, `options` and `vcordova`, taken from `configuration`, `logLevel`, `options` and `cordovaVersion`. |
| `Transport.BuildNumberOf` | lib/remoteBuildClient.js:83 | The submission yields `json.buildNumber` (undefined when absent) of a resolved object response. A failed request fails it. An empty 201 response makes the property read throw. |
| `Transport.EndpointsDistinct` | lib/remoteBuildClient.js:162-168 | The status, artifact and log requests are GETs. The submission and the three requests about a build are four distinct requests. |
| `Transport.All2` | lib/remoteBuildClient.js:57-60 | `Promise.all` of two resolves exactly when both resolve, with both values in order. It rejects exactly when either rejects, with one of their reasons. |
| `Transport.Downloads` | lib/tacoRemoteClient.js:58-65 | The paired downloads resolve exactly when both do, as `{zip: first, log: second}`. Either failure fails the pair. |
| `Polling.ObserveCases` | lib/remoteBuildClient.js:100-102 | `Observe`: a status body gives its `message` and `status`. An empty or `null` body makes the read throw, and a text or binary body has neither field. |
| `Polling.Check` | lib/remoteBuildClient.js:95-98 | The predicate rejects with `build timeout` if and only if the elapsed time is strictly greater than `buildTimeout`. It stays pending exactly when the deadline has not passed and the status request is never answered. |
| `Polling.CheckVerdicts` | lib/remoteBuildClient.js:106-117 | Within the deadline, the predicate resolves `true` for a non-terminal status and `false` for COMPLETE, and rejects with `Build failed: s` exactly for a failure status `s`. |
| `Polling.IterationsCoherent` | lib/remoteBuildClient.js:96-97 | An iteration that finds the deadline passed rejects with `build timeout`, and the last iteration never lets the loop go round. |
| `Polling.PollFrom` | lib/remoteBuildClient.js:94-121 | A run from iteration `i` sleeps at least `i` times and stops at an iteration that exists. |
| `Polling.CheckOnce` | lib/remoteBuildClient.js:95-118 | One predicate call computes `Check`. It sends the status request exactly when the deadline has not passed, and updates the log only when it has read a message. |
| `Polling.WaitUntilBuildComplete` | lib/remoteBuildClient.js:90-122 | The loop computes the run `PollSpec`, and it sends one status request for the given build per fetch of that run. |
| `Polling.PollStep` | lib/tacoRemoteClient.js:107-133 | One iteration either goes round again (non-terminal status, request sent) or ends the run with its own settlement. |
| `Polling.PollFromStops` | lib/tacoRemoteClient.js:107-133 | A run from iteration `i` goes round exactly while statuses are non-terminal. It stops with the first other settlement, never a truthy one, and sends a request there unless that iteration is late. |
| `Polling.PollFromStopsAt` | lib/tacoRemoteClient.js:107-133 | A run that sees non-terminal statuses up to iteration `n` and something else at `n` stops at `n`. |
| `Polling.PollEnds` | lib/tacoRemoteClient.js:107-133 | Every run ends after `n` sleeps, each taken on a non-terminal status, with the settlement of iteration `n`, which is never `true`. That iteration sends a request unless it found the deadline passed. |
| `Polling.PollResult` | lib/tacoRemoteClient.js:107-133 | The run ends with `v` if and only if, after polling on, some iteration settles with `v`. The run stops at that iteration. |
| `Polling.TimeoutIff` | lib/tacoRemoteClient.js:109-111 | The loop rejects with `build timeout` if and only if an iteration it reached finds the elapsed time strictly over `buildTimeout`. That iteration sends no request. |
| `Polling.HangsIff` | lib/remoteBuildClient.js:100 | The loop never settles exactly when a status request it sent within the deadline is never answered. The deadline does not bound a request in flight. |
| `Polling.CompleteIff` | lib/tacoRemoteClient.js:125-126 | The loop resolves if and only if a status response it reached within the deadline shows COMPLETE. |
| `Polling.FailedIff` | lib/tacoRemoteClient.js:119-123 | The loop rejects with `Build failed: s` if and only if `s` is ERROR, DOWNLOADED or INVALID and a status response it reached within the deadline shows `s`. |
| `Polling.PollIsWhilst` | lib/remoteBuildClient.js:94-121 | The poll loop is `whilst` with the status check as predicate and the sleep as body. It has the same settlement, one sleep per truthy check, and one check more than sleeps. |
| `Polling.PollFromIsRunFrom` | lib/remoteBuildClient.js:94-121 | From any iteration on, the poll run and the `whilst` run agree on settlement, sleeps and predicate calls. |
| `Polling.PollLogged` | lib/tacoRemoteClient.js:105-117 | The loop logs exactly `Logged`, the consecutive-duplicate-free sequence of the messages shown by the responses it received, starting from `null`. |
| `Polling.RecordStep` | lib/remoteBuildClient.js:101-104 | `Record` of one more response extends the deduplicated log of the messages seen so far by that response's message. |
| `Polling.PollFromLogged` | lib/remoteBuildClient.js:101-104 | From any iteration on, the log written is the deduplicated sequence of the messages of all responses received. |
| `Polling.LoggedAppend` | lib/remoteBuildClient.js:101-104 | Logging is incremental: logging `a` then `b` writes what `a` writes, then what `b` writes after the last message of `a`. |
| `Polling.LastAppend` | lib/remoteBuildClient.js:102 | The last message seen after `a` then `b` is the last of `b`, or else the last of `a`. |
| `Polling.LastLogged` | lib/remoteBuildClient.js:102 | `lastMessage` is the last message logged, or `null`. |
| `Polling.LoggedNoRepeats` | lib/remoteBuildClient.js:101-104 | No logged message is strictly equal to the one logged before it, nor is the first equal to `null`. |
| `Polling.LoggedKeepsDistinct` | lib/remoteBuildClient.js:101-104 | A message sequence without consecutive repeats is logged in full. |
| `Polling.LoggedIdempotent` | lib/tacoRemoteClient.js:114-117 | Deduplicating an already deduplicated log changes nothing. |
| `Polling.RepeatSuppressed` | lib/tacoRemoteClient.js:114-117 | A message shown twice in a row is logged once. An object message, never `===` to an earlier one, is logged every time. |
| `Polling.ShownAgainLogged` | lib/remoteBuildClient.js:101-104 | A message shown again after a different message is logged again, however often it was seen before. |
| `RemoteBuildClient.Build` | lib/remoteBuildClient.js:52-66 | `build` computes `BuildOf`, that is `BuildSpec` of the submission reply, the poll run and the two download replies; `BuildOrder`, `BuildSucceeds` and `BuildFailure` state its properties. |
| `RemoteBuildClient.BuildOrder` | lib/remoteBuildClient.js:52-60 | Requests go out as: the submission, then one status request per fetch of the loop for the submitted build, then artifact and log downloads only when the loop resolved. A failed submission sends nothing more. |
| `RemoteBuildClient.DownloadsOnlyAfterWait` | lib/remoteBuildClient.js:56-58 | The artifact is requested only if the poll loop resolved, which happens only on COMPLETE. |
| `RemoteBuildClient.BuildSucceeds` | lib/remoteBuildClient.js:61-64 | `build` resolves exactly when the submission, the loop and both downloads do, with `{zip: artifact, log: log}`. |
| `RemoteBuildClient.BuildFailure` | lib/remoteBuildClient.js:53-60 | The first failure decides: a failed submission, then a failed or timed-out wait, then a failed download (the artifact's before the log's). |
| `TacoRemoteClient.WaitReturnsBuildNumber` | lib/tacoRemoteClient.js:134 | The wait resolves with exactly the build number it was given when the loop resolves, and fails or hangs exactly as the loop does. |
| `TacoRemoteClient.BuildRequests` | lib/tacoRemoteClient.js:86-88 | `build` sends the submission and one status request per fetch. After a failed wait it sends exactly one more request, for the log of the same build, and the status requests never include that log request. |
| `TacoRemoteClient.FailedBuildResolves` | lib/tacoRemoteClient.js:88-94 | As written: when the wait rejects and the diagnostic log downloads, `build` resolves with `undefined`. |
| `TacoRemoteClient.AsWrittenOutcome` | lib/tacoRemoteClient.js:68-95 | As written: `build` resolves with the build number when the wait succeeds, whatever the log. After a failed wait it resolves with `undefined` if the log was fetched, rejects with the log download's own error if it was not, and hangs if the log never arrives. The wait's `Build failed` or `build timeout` error never reaches `build`'s promise, and is never combined with the log error. A failed or unanswered submission is `build`'s own settlement, and a wait that never settles makes `build` hang. |
| `TacoRemoteClient.CorrectedBuildOutcome` | lib/tacoRemoteClient.js:86-95 | Corrected fallback: `build` resolves exactly when submission and wait succeed, with the submitted build number. Otherwise, once the log download settles, it rejects with the write error, else the original error, or the log download's own error. |
| `TacoRemoteClient.Build` | lib/tacoRemoteClient.js:68-97 | `build` as written computes `BuildSpec`: submit, wait, and on a failed wait the diagnostic log download handled by `Recover`. `AsWrittenOutcome` states the outcome. |
| `TacoRemoteClient.BuildWorkflow` | lib/tacoRemoteClient.js:55-66 | `buildWorkflow` computes `WorkflowSpec` of `build`'s run and the two download replies. |
| `TacoRemoteClient.WorkflowDownloads` | lib/tacoRemoteClient.js:58-65 | After everything `build` sent, the workflow requests `build/<n>/download` and then `build/tasks/<n>/log` for the number `build` resolved with. It resolves exactly when all three resolve, as `{zip: result[0], log: result[1]}`. |
| `TacoRemoteClient.FailedBuildDownloadsUndefined` | lib/tacoRemoteClient.js:55-61 | As written: after a failed wait whose log downloads, the workflow requests the artifact of build `undefined`. With the corrected `build` it stops with a rejection and sends nothing more. |
| `GulpRemoteBuild.MergeOptions` | index.js:15-27 | User options override the defaults key by key, unspecified keys keep their default values, and an omitted argument gives exactly the defaults. |
| `GulpRemoteBuild.SplitHost` | index.js:29 | For a plain `name[:port]` host: the host name is the text before the first `:` and the port the text after it. Together they give back the host, and with no `:` there is no port. |
| `GulpRemoteBuild.WithHostSplits` | index.js:29-32 | `hostname` and `port` are set from `host`, the port is `null` exactly when the host has no `:`, and every other option is unchanged. |
| `GulpRemoteBuild.ReplaceBackslashes` | index.js:41 | Every `\` becomes `/`, every other character is kept, and the length is unchanged. |
| `GulpRemoteBuild.Filename` | index.js:41 | The archive name has no `\`. It gets a trailing `/` exactly for a null (directory) entry, and otherwise keeps the relative path's characters. |
| `GulpRemoteBuild.FirstSegment` | index.js:42 | The first segment is the longest `/`-free prefix of the name. |
| `GulpRemoteBuild.FirstSegmentIs` | index.js:42 | The first segment is `d` exactly when the name is `d` or lies below `d/`. |
| `GulpRemoteBuild.ExcludedIff` | index.js:42-44 | An entry is excluded if and only if it is `bin`, `bld` or `platforms` or lies below one of them. `binaries/x` and `www/bin/x` are kept. |
| `GulpRemoteBuild.ArchivedAppend` | index.js:44-54 | Processing one more file appends its entry, if it is included, to the archive. |
| `GulpRemoteBuild.ArchivedEntries` | index.js:44-54 | `Archived`, built from `EntryOf`, holds one entry per included file, which is the included count. Every entry is named `cordova-app/<name>` for a non-excluded name, and each included file appears with its contents and its date (mtime or none). |
| `GulpRemoteBuild.VersionDiscarded` | index.js:73 | As written: without `taco.json` the build is submitted with `vcordova` undefined, although the defaults hold 5.1.1. |
| `GulpRemoteBuild.VersionKept` | index.js:56-59 | Corrected: the submitted version is the one from `taco.json` when there was one, else the one the options already held. |
| `GulpRemoteBuild.ExtractedFiles` | index.js:89-97 | Each extracted file is emitted once, in order, keeping its original path and data. |
| `GulpRemoteBuild.EmittedOrder` | index.js:81-97 | `taco.log` is pushed before any extracted file. The flush succeeds exactly when the build resolved with a log and the artifact decompressed, and then it pushed the log and every extracted file in order. Nothing is pushed when the build fails. |
| `GulpRemoteBuild.ConfiguredOptions` | index.js:26-32 | The configured options hold every key of the defaults and of the user's options, plus `hostname` and `port`. A user's value wins over the default, and an unset key keeps its default. The host name has no `:`, the port is `null` exactly when the merged `host` has no `:`, and otherwise host name, `:` and port give back `host`. |
| `GulpRemoteBuild.Plugin.constructor` | index.js:26-37 | The plugin starts with the options `Configure` computes, which `ConfiguredOptions` describes, an empty archive, a zero count, no version and nothing pushed. |
| `GulpRemoteBuild.Plugin.Transform` | index.js:40-68 | One file: the archive grows by the file's entry if it is included, and the count with it. An archive that held the entries of the files seen before holds those of the files seen now. For `taco.json` only, whether archived or not, the version becomes `json['cordova-cli']` and the callback follows `readJSON`. The options and the output do not change. |
| `GulpRemoteBuild.Plugin.CountsIncluded` | index.js:35-53 | When the archive holds the entries of the files seen, `filesCompressed` is the number of those files the filter lets through. |
| `GulpRemoteBuild.Plugin.Archive` | index.js:44-54 | `tar.append` and `filesCompressed++` happen exactly for an included file, so the count stays the archive's length. An archive that held the entries of the files seen before holds those of the files seen now. |
| `GulpRemoteBuild.Plugin.ReadTacoJson` | index.js:56-67 | The version is read only when the normalised name is exactly `taco.json`. A read or parse error reaches the callback, and a throwing handler leaves the callback uncalled. |
| `GulpRemoteBuild.Plugin.Flush` | index.js:69-100 | As written: the archive is finalised and the version stored. The flush then calls `buildWorkflow`, which `RemoteBuildClient` lacks, so the callback gets a TypeError and nothing is pushed or sent. |
| `GulpRemoteBuild.Plugin.FlushCorrected` | index.js:69-100 | Corrected flush, with both corrections: `build` in place of `buildWorkflow`, and the version kept as `VersionKept` states. The requests are those of `RemoteBuildClient.build` on the options carrying the version, and the pushed files and the callback are those `EmittedOrder` describes. |
| `GulpRemoteBuild.Plugin.Emit` | index.js:81-99 | The files pushed after the build are `Emitted`, and the callback is `FlushDone`. |
| `Scenarios.OneOfTwoArchived` | index.js:41-53 | Of `bin/app.apk` and `www\a.js`, only the second is archived, as `cordova-app/www/a.js`, and the count is 1. |
| `Scenarios.BinExcluded` | index.js:42-44 | `bin/app.apk` is not archived. |
| `Scenarios.WwwName` | index.js:41 | `www\a.js` is named `www/a.js`. |
| `Scenarios.WwwKept` | index.js:42-44 | `www/a.js` is not in an excluded directory. |
| `Scenarios.WwwIncluded` | index.js:44-51 | `www\a.js` is archived as `cordova-app/www/a.js` with its contents and date. |
| `Scenarios.StatusReply` | lib/remoteBuildClient.js:100-106 | A 200 `application/json` reply `{status, message}` shows that status and that message to the loop. |
| `Scenarios.TwoSleepsThenComplete` | lib/remoteBuildClient.js:94-121 | Statuses [building, building, COMPLETE] with readings 10 apart and a 1000 timeout give three requests, two sleeps and success. The repeated message is logged once. |
| `Scenarios.NeverCompleteTimesOut` | lib/remoteBuildClient.js:95-98 | A build that never finishes, with a 50 timeout and readings 10 apart (the first check reading 10 after the start; the program checks at once after the start, which would give one more request and sleep), still polls at exactly 50 elapsed. It rejects with `build timeout` at 60, after five requests and five sleeps. |
| `Scenarios.ErrorAtOnce` | lib/remoteBuildClient.js:106-110 | A first status of ERROR rejects with `Build failed` after one request and no sleep. |
| `Scenarios.FailsAtOnce` | lib/tacoRemoteClient.js:86-94 | After such a failure the taco `build` sends one log request for the same build and resolves with `undefined` once the log arrives. |

## Left out

- Network I/O is not modelled: the URL built from host, port and the `encodeURI`-escaped mount path, and the proxy agent from `http_proxy`, are left out. A request is its relative path, query and fetch options. The server's behaviour is one reply per request kind, and a sequence of replies for the status requests.
- Real time is not modelled. `Date.now` is an injected clock, and `setTimeout(resolve, pollInterval)` is a sleep that always resolves. `pollInterval` is never read, so the time between readings is whatever the clock says.
- `Promise.all` concurrency is not modelled. Both downloads are always requested.
- GulpRemoteBuild.SplitHost: splits a plain `name[:port]` at its first `:`, which is not all of Node's `url.parse`. It does not lowercase the host name (`BuildHost` stays `BuildHost`, not `buildhost`). For `localhost:` it gives the port `""` where `url.parse` gives `null`. Bracketed IPv6 hosts such as `[::1]:3000` and hosts with credentials such as `user@host:1` are parsed differently.
- Js.Num: holds an integer. JavaScript numbers are doubles, so a fractional `buildTimeout` or build number is not representable.
- TacoRemoteClient.Recover: treats every fetched log the same and resolves with `undefined`. On current Node, `fs.writeFile` (lib/tacoRemoteClient.js:89) throws synchronously when the log is `undefined` (a 201 reply) or a decoded JSON object, so `build` rejects with that TypeError. Older Node versions write the string form instead. In either case the `Promise.reject(fsErr || err)` inside the `writeFile` callback (lib/tacoRemoteClient.js:92) is an unhandled rejection: Node before 15 prints a warning, later versions end the process with that error by default. The model follows only `build`'s promise.
- GulpRemoteBuild.TacoCallback: when reading `cordova-cli` throws (a `null` `taco.json` document, index.js:58-63), the model leaves the transform's callback uncalled and stops there. The promise that handler returns is dropped, so its rejection is unhandled: Node before 15 prints a warning, later versions end the process with that TypeError by default. Process termination is not modelled.
- Transport.All2: when both downloads fail, the model reports the artifact's error. JavaScript reports whichever rejects first in time, which depends on timing.
- `gutil.log`, `colors` and `numeral` formatting are not modelled. Progress logging is the sequence of logged messages, and the compression-progress and "Building on" lines are left out.
- `fs.writeFile('taco-error.log')` is left out. Its outcome enters only the corrected fallback, as a parameter.
- `archiver`, `decompress`, `read-all-stream` and `JSON.parse` are opaque. A response body carries its parsed JSON (or none), a file carries how `readJSON` settles, and `decompress` is a parameter. The archive is the sequence of appended entries, with finalisation as a flag.
- GulpRemoteBuild.EntryOf names an entry `cordova-app/` + the filename. `path.join` would also collapse `.`/`..` segments and repeated separators, and on Windows join with `\`. This normalisation is not modelled.
- GulpRemoteBuild.LogBuffer rejects only an empty (201) log. `new Buffer` of a JSON-decoded log object is treated as succeeding.
- Js.Exceeds converts only numbers, `null` and booleans. A `buildTimeout` given as a numeric string compares as NaN, so it never times out, whereas JavaScript would convert it to a number.
- The `BuildInfo` status labels come from `taco-utils`, which is not part of this model. They are distinct string stand-ins, and the loop relies only on their being distinct.
- `timedReport.js` and `lib/intervalReporter.js` (the periodic compression reporter and `stopReport`) are left out. They are timer plumbing with no sequential logic to state.
- The commented-out earlier poll loop in `lib/remoteBuildClient.js` is not live code and is not modelled.
- `this.push` into the gulp stream is the `pushed` sequence of the plugin. `file.contents` streams are read through `readJSON` only for `taco.json`.

## Findings

| source | as written | input that shows it | evidently intended | confidence | as-written member | corrected member |
|---|---|---|---|---|---|---|
| lib/tacoRemoteClient.js:88-94 | The rejection is returned inside the `fs.writeFile` callback, so the `.then` handler returns `undefined` and `build()` resolves after a failed build whose log downloaded. `buildWorkflow` then requests the artifact of build `undefined`. | first status `Error`, then a 200 `text/plain` log download | `build()` rejects with the write error, else the original `Build failed` / `build timeout` error | high (not executed) | `TacoRemoteClient.FailedBuildResolves` | `TacoRemoteClient.CorrectedBuildOutcome` |
| index.js:77-80 | `client.buildWorkflow(tar)` is called on a `RemoteBuildClient`, which defines `build` but no `buildWorkflow`, so every flush fails with a TypeError and no build is sent | any stream, at flush | call `client.build(tar)`, which resolves with `{ zip, log }` | high (not executed) | `GulpRemoteBuild.Plugin.Flush` | `GulpRemoteBuild.Plugin.FlushCorrected` |
| index.js:73 | `options.cordovaVersion` is overwritten with the version read from `taco.json`, which is `undefined` when there is no `taco.json`. The default `5.1.1`, or the user's version, is lost. | a stream without `taco.json` | keep the merged option unless `taco.json` supplied a version | medium (not executed) | `GulpRemoteBuild.VersionDiscarded` | `GulpRemoteBuild.VersionKept` |
