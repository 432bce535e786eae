/** The HTTP side of both clients: what `_fetch` sends and how it classifies
    what comes back. Host, port, mount path and proxy agent are the same for
    every request of a client and are not part of a `Request`. */
module Transport {
  import opened Js

  /** A response body, seen the three ways `_fetch` may read it: as text, as
      parsed JSON (`None` when it does not parse) and as a raw buffer. */
  datatype Body = Body(text: string, json: Option<JsValue>)

  /** A response: status code, the `content-type` header (`None` when
      absent, which `headers.get` reports as null) and the body. */
  datatype Response = Response(status: int, contentType: Option<string>, body: Body)

  /** What the network delivers for one request: a response, a failure of the
      request itself, or nothing ever. */
  datatype Reply = Answer(response: Response) | Unreachable(reason: string) | NoAnswer

  /** The value `_fetch` resolves with. */
  datatype Decoded = NoContent | Json(doc: JsValue) | Text(text: string) | Raw(body: Body)

  /** A request: path relative to the mount path, query and fetch options. */
  datatype Request = Request(relativePath: string, query: map<string, JsValue>, init: map<string, JsValue>)

  /** How a client operation settles and the requests it sends, in order. */
  datatype Run<T> = Run(result: Settled<T, Error>, requests: seq<Request>)

  /** `~~(a / d)`: division truncated toward zero, as `~~` truncates. */
  function TruncDiv(a: int, d: int): int
    requires d > 0
  {
    if a >= 0 then a / d else -((-a) / d)
  }

  /** The hundreds test of `_fetch` is the 2xx range. */
  lemma HundredsIsTwo(status: int)
    ensures TruncDiv(status, 100) == 2 <==> 200 <= status < 300
  {
  }

  predicate StartsWith(s: string, prefix: string) {
    |prefix| <= |s| && s[..|prefix|] == prefix
  }

  /** `/^prefix/.test(contentType)`; an absent header is tested as "null". */
  predicate HasType(contentType: Option<string>, prefix: string) {
    contentType.Some? && StartsWith(contentType.value, prefix)
  }

  /** The classification of a response by `_fetch`: the hundreds digit of
      the status decides success, 201 has no body, and the body is read by
      the content type. */
  function Classify(res: Response): Settled<Decoded, Error>
  {
    if res.status == 201 then Resolved(NoContent)
    else if TruncDiv(res.status, 100) == 2 then
      if HasType(res.contentType, "application/json") then
        match res.body.json
        case Some(doc) => Resolved(Json(doc))
        case None => Rejected(InvalidBody)
      else if HasType(res.contentType, "text/plain") then Resolved(Text(res.body.text))
      else Resolved(Raw(res.body))
    else Rejected(ServerReturned(res.status))
  }

  /** `_fetch` never leaves a response unsettled; it accepts exactly the 2xx
      range, answers 201 with no content, decodes the body by its content
      type, and fails exactly for a non-2xx status or a JSON body that does
      not parse. */
  lemma ClassifyCases(res: Response)
    ensures !Classify(res).Pending?
    ensures res.status == 201 ==> Classify(res) == Resolved(NoContent)
    ensures !(200 <= res.status < 300) ==> Classify(res) == Rejected(ServerReturned(res.status))
    ensures 200 <= res.status < 300 && res.status != 201 ==>
      if HasType(res.contentType, "application/json") then
        (if res.body.json.Some? then Classify(res) == Resolved(Json(res.body.json.value)) else Classify(res) == Rejected(InvalidBody))
      else if HasType(res.contentType, "text/plain") then Classify(res) == Resolved(Text(res.body.text))
      else Classify(res) == Resolved(Raw(res.body))
    ensures Classify(res).Rejected? <==>
      !(200 <= res.status < 300) ||
      (res.status != 201 && HasType(res.contentType, "application/json") && res.body.json.None?)
  {
    HundredsIsTwo(res.status);
  }

  /** How the promise of one `_fetch` call settles for the reply it gets. */
  function Settle(reply: Reply): Settled<Decoded, Error>
  {
    match reply
    case Answer(res) => Classify(res)
    case Unreachable(reason) => Rejected(NetworkFailure(reason))
    case NoAnswer => Pending
  }

  /** The reply to the i-th request; requests beyond the replies are never answered. */
  function ReplyAt(replies: seq<Reply>, i: nat): (r: Reply)
    ensures i >= |replies| ==> r == NoAnswer
  {
    if i < |replies| then replies[i] else NoAnswer
  }

  /** The JavaScript value of what `_fetch` resolved with. */
  function Value(d: Decoded): JsValue
  {
    match d
    case NoContent => Undefined
    case Json(doc) => doc
    case Text(s) => Str(s)
    case Raw(_) => Obj(map[])
  }

  /** The fetch options `_fetch` passes on: `method` defaults to GET, then
      every option the caller supplied overrides the defaults. */
  function FetchInit(fetchOptions: map<string, JsValue>): (r: map<string, JsValue>)
    ensures r.Keys == fetchOptions.Keys + {"method"}
    ensures forall k :: k in fetchOptions ==> r[k] == fetchOptions[k]
    ensures "method" !in fetchOptions ==> r["method"] == Str("GET")
  {
    var requested := Get(fetchOptions, "method");
    Assign(map["method" := if Truthy(requested) then requested else Str("GET")], fetchOptions)
  }

  /** The request one `_fetch(relativePath, query, fetchOptions)` call issues. */
  function Fetch(relativePath: string, query: map<string, JsValue>, fetchOptions: map<string, JsValue>): Request
  {
    Request(relativePath, query, FetchInit(fetchOptions))
  }

  /** The submission: POST `build/tasks` with the build configuration as
      query and the archive stream as body. */
  function SubmitRequest(options: map<string, JsValue>): (r: Request)
    ensures r.relativePath == "build/tasks"
    ensures "method" in r.init && "body" in r.init
    ensures r.init["method"] == Str("POST") && r.init["body"] == Stream
    ensures r.query.Keys == {"cfg", "command", "loglevel", "options", "vcordova"}
    ensures r.query["command"] == Str("build")
    ensures r.query["cfg"] == Get(options, "configuration") && r.query["loglevel"] == Get(options, "logLevel")
    ensures r.query["options"] == Get(options, "options") && r.query["vcordova"] == Get(options, "cordovaVersion")
  {
    Fetch(
      "build/tasks",
      map[
        "cfg" := Get(options, "configuration"),
        "command" := Str("build"),
        "loglevel" := Get(options, "logLevel"),
        "options" := Get(options, "options"),
        "vcordova" := Get(options, "cordovaVersion")],
      map["body" := Stream, "method" := Str("POST")])
  }

  /** GET `build/tasks/<n>`: the status of build n. */
  function StatusRequest(buildNumber: JsValue): Request
  {
    Fetch("build/tasks/" + ToStr(buildNumber), map[], map[])
  }

  /** GET `build/<n>/download`: the artifact of build n. */
  function DownloadRequest(buildNumber: JsValue): Request
  {
    Fetch("build/" + ToStr(buildNumber) + "/download", map[], map[])
  }

  /** GET `build/tasks/<n>/log`: the log of build n. */
  function LogRequest(buildNumber: JsValue): Request
  {
    Fetch("build/tasks/" + ToStr(buildNumber) + "/log", map[], map[])
  }

  /** The four endpoints never coincide for one build number, and the three
      requests about a build are GETs. */
  lemma EndpointsDistinct(options: map<string, JsValue>, n: JsValue)
    ensures StatusRequest(n).init["method"] == Str("GET")
    ensures DownloadRequest(n).init["method"] == Str("GET")
    ensures LogRequest(n).init["method"] == Str("GET")
    ensures |{SubmitRequest(options), StatusRequest(n), DownloadRequest(n), LogRequest(n)}| == 4
  {
    var s, t, d, l := SubmitRequest(options), StatusRequest(n), DownloadRequest(n), LogRequest(n);
    assert |s.relativePath| < |t.relativePath| < |d.relativePath| < |l.relativePath|;
  }

  /** The build number of a submission: `json.buildNumber` of what `_fetch`
      resolved with. A missing field yields `undefined`; reading it from an
      empty (201) response throws. */
  function BuildNumberOf(reply: Reply): (r: Settled<JsValue, Error>)
    ensures r.Resolved? ==> reply.Answer? && Settle(reply).Resolved? && Settle(reply) != Resolved(NoContent)
    ensures Settle(reply).Resolved? && Value(Settle(reply).value).Obj? ==>
      r == Resolved(Get(Value(Settle(reply).value).fields, "buildNumber"))
    ensures !Settle(reply).Resolved? ==> r == Propagate(Settle(reply))
    ensures Settle(reply) == Resolved(NoContent) ==> r == Rejected(TypeError("buildNumber"))
  {
    match Settle(reply)
    case Resolved(d) => Property(Value(d), "buildNumber")
    case Rejected(e) => Rejected(e)
    case Pending => Pending
  }

  /** `Promise.all([a, b])`: both values once both resolve; a rejection of
      either fails the whole (the first listed when both fail). */
  function All2<A, B>(a: Settled<A, Error>, b: Settled<B, Error>): (r: Settled<(A, B), Error>)
    ensures r.Resolved? <==> a.Resolved? && b.Resolved?
    ensures r.Resolved? ==> r.value == (a.value, b.value)
    ensures r.Rejected? <==> a.Rejected? || b.Rejected?
    ensures r.Rejected? ==> (a.Rejected? && r.reason == a.reason) || (b.Rejected? && r.reason == b.reason)
  {
    if a.Rejected? then Rejected(a.reason)
    else if b.Rejected? then Rejected(b.reason)
    else if a.Pending? || b.Pending? then Pending
    else Resolved((a.value, b.value))
  }

  /** `{ log: result[1], zip: result[0] }`. */
  datatype BuildOutput = BuildOutput(zip: Decoded, log: Decoded)

  /** The pair of downloads `Promise.all` waits for, as a `BuildOutput`. */
  function Downloads(zip: Settled<Decoded, Error>, log: Settled<Decoded, Error>): (r: Settled<BuildOutput, Error>)
    ensures r.Resolved? <==> zip.Resolved? && log.Resolved?
    ensures r.Resolved? ==> r.value == BuildOutput(zip.value, log.value)
    ensures r.Rejected? <==> zip.Rejected? || log.Rejected?
  {
    match All2(zip, log)
    case Resolved(pair) => Resolved(BuildOutput(pair.0, pair.1))
    case Rejected(e) => Rejected(e)
    case Pending => Pending
  }

  /** `n` status requests for the same build. */
  function StatusRequests(buildNumber: JsValue, n: nat): (r: seq<Request>)
    ensures |r| == n && forall k :: 0 <= k < n ==> r[k] == StatusRequest(buildNumber)
  {
    seq(n, _ => StatusRequest(buildNumber))
  }
}
