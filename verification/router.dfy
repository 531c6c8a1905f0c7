/**
 Request routing of the video server: the codec registry filled at start-up, the
 four request handlers (`/`, `/stream`, `/stream_viewer`, `/snapshot`), the
 dispatch by path with a not-found reply for every other path, and the logging
 wrapper that runs each handler and contains any `std::exception` it raises.

 Building and starting a session belongs to the codec's streamer, whose code is
 not part of this model: a `Session` records what it was built from, and whether
 building and starting it raised an error is an input (`StartOutcome`). The
 viewer fragment of a codec is likewise an input function.
 */
module Router {
  import opened Text
  import Directory
  import Registry

  /** The parts of an HTTP request the handlers read. */
  datatype Request = Request(uri: string, path: string, query: map<string, string>)

  /** The value of a query parameter, or `default` when the request does not carry it. */
  function QueryParam(req: Request, key: string, default: string): string {
    if key in req.query then req.query[key] else default
  }

  /** The streamer types a codec name can select. */
  datatype StreamerType =
    | MjpegStreamerType
    | Vp8StreamerType
    | LibavStreamerType(format: string, codec: string, contentType: string)

  /** The codec registry, filled once at start-up and only read afterwards. */
  const StreamTypes: map<string, StreamerType> := map[
    "mjpeg" := MjpegStreamerType,
    "vp8" := Vp8StreamerType,
    "h264" := LibavStreamerType("mp4", "libx264", "video/mp4")
  ]

  const DefaultStreamType: string := "mjpeg"

  /** The codec a `/stream` or `/stream_viewer` request asks for: its `type`
      parameter, or `mjpeg` when it carries none. */
  function StreamType(req: Request): (t: string)
    ensures "type" in req.query ==> t == req.query["type"]
    ensures "type" !in req.query ==> t == DefaultStreamType && t in StreamTypes
  {
    QueryParam(req, "type", DefaultStreamType)
  }

  /** A session is a streamer of some type, or a one-frame snapshot. */
  datatype SessionKind = Streamer(streamerType: StreamerType) | JpegSnapshot

  /** One live session, identified by what it was built from. */
  datatype Session = Session(kind: SessionKind, request: Request, connection: nat)

  /** Whether building and starting a session returned or raised a `std::exception`
      carrying the message `what`. */
  datatype StartOutcome = Started | Threw(what: string)

  /** What a handler sends on the connection: the stock not-found reply, a body
      produced by a started session, or an HTML body written in chunks. */
  datatype Reply = NotFound | Streaming(session: Session) | Html(writes: seq<string>)

  /** A handler either returns, with the new registry and its reply, or raises. */
  datatype HandlerResult = Done(registry: seq<Session>, reply: Reply) | Raised(what: string)

  // ---------------------------------------------------------------------------
  // Handlers
  // ---------------------------------------------------------------------------

  /**
   `/stream`: look the codec up; on a miss reply not-found and leave the
   registry alone; on a hit build and start a streamer and append it.
   */
  function HandleStream(registry: seq<Session>, req: Request, conn: nat, start: StartOutcome): (r: HandlerResult)
    ensures r.Done? ==> |registry| <= |r.registry| && r.registry[..|registry|] == registry
    ensures r.Done? && r.reply == NotFound <==> StreamType(req) !in StreamTypes
    ensures r.Done? && r.reply == NotFound ==> r.registry == registry
    ensures r.Done? && r.reply != NotFound <==> StreamType(req) in StreamTypes && start.Started?
    ensures r.Done? && r.reply != NotFound ==>
      |r.registry| == |registry| + 1 && r.reply == Streaming(r.registry[|registry|])
      && r.registry[|registry|].kind == Streamer(StreamTypes[StreamType(req)])
    ensures r.Raised? <==> StreamType(req) in StreamTypes && start.Threw?
  {
    var name := StreamType(req);
    if name in StreamTypes then
      match start
      case Started =>
        var session := Session(Streamer(StreamTypes[name]), req, conn);
        Done(Registry.Insert(registry, session), Streaming(session))
      case Threw(what) => Raised(what)
    else
      Done(registry, NotFound)
  }

  /** `/snapshot`: always build and start a snapshot session and append it. */
  function HandleSnapshot(registry: seq<Session>, req: Request, conn: nat, start: StartOutcome): (r: HandlerResult)
    ensures start.Started? <==> r.Done?
    ensures r.Done? ==>
      |r.registry| == |registry| + 1 && r.registry[..|registry|] == registry
      && r.registry[|registry|].kind == JpegSnapshot && r.reply == Streaming(r.registry[|registry|])
  {
    match start
    case Started =>
      var session := Session(JpegSnapshot, req, conn);
      Done(Registry.Insert(registry, session), Streaming(session))
    case Threw(what) => Raised(what)
  }

  const ViewerHead: string := "<html><head><title>"
  const ViewerTail: string := "</body></html>"

  /** The page of `/stream_viewer`: titled and headed with the topic, then the codec's fragment. */
  function ViewerPage(topic: string, fragment: string): (page: string)
    ensures StartsWith(page, ViewerHead + topic + "</title></head><body><h1>" + topic + "</h1>")
    ensures EndsWith(page, fragment + ViewerTail)
  {
    var head := ViewerHead + topic + "</title></head><body>" + "<h1>" + topic + "</h1>";
    var page := head + fragment + ViewerTail;
    assert page[..|head|] == head;
    assert page[|page| - |fragment + ViewerTail|..] == fragment + ViewerTail;
    page
  }

  /**
   `/stream_viewer`: look the codec up; on a hit reply with the viewer page for
   the requested topic (empty when absent), else not-found. The registry is
   never touched.
   */
  function HandleStreamViewer(registry: seq<Session>, req: Request,
                              viewer: (StreamerType, Request) -> string): (r: HandlerResult)
    ensures r.Done? && r.registry == registry
    ensures r.reply == NotFound <==> StreamType(req) !in StreamTypes
    ensures r.reply != NotFound ==> r.reply == Html([ViewerPage(QueryParam(req, "topic", ""),
                                                                viewer(StreamTypes[StreamType(req)], req))])
  {
    var name := StreamType(req);
    if name in StreamTypes then
      var topic := QueryParam(req, "topic", "");
      Done(registry, Html([ViewerPage(topic, viewer(StreamTypes[name], req))]))
    else
      Done(registry, NotFound)
  }

  /** `/`: the topic directory, for the topics the bus reports at this moment. */
  function HandleListStreams(registry: seq<Session>, topics: seq<Directory.TopicInfo>): (r: HandlerResult)
    ensures r.Done? && r.registry == registry && r.reply.Html?
  {
    Done(registry, Html(Directory.DirectoryPage(topics)))
  }

  // ---------------------------------------------------------------------------
  // Dispatch and the logging wrapper
  // ---------------------------------------------------------------------------

  /** Everything a request's handling depends on besides the registry. */
  datatype Event = Event(
    request: Request,
    connection: nat,
    start: StartOutcome,
    topics: seq<Directory.TopicInfo>)

  /** The requests whose handler raises: a stream of a known codec or a snapshot,
      when building or starting the session raises. */
  predicate Raises(e: Event) {
    && e.start.Threw?
    && (|| (e.request.path == "/stream" && StreamType(e.request) in StreamTypes)
        || e.request.path == "/snapshot")
  }

  /** Dispatch by path; any other path gets the stock not-found reply. */
  function Dispatch(registry: seq<Session>, e: Event, viewer: (StreamerType, Request) -> string): HandlerResult
  {
    var req := e.request;
    if req.path == "/" then HandleListStreams(registry, e.topics)
    else if req.path == "/stream" then HandleStream(registry, req, e.connection, e.start)
    else if req.path == "/stream_viewer" then HandleStreamViewer(registry, req, viewer)
    else if req.path == "/snapshot" then HandleSnapshot(registry, req, e.connection, e.start)
    else Done(registry, NotFound)
  }

  /**
   Which requests raise depends on the request alone, never on the registry;
   every other request returns, keeping each existing entry in place and
   adding at most one session.
   */
  lemma DispatchOutcome(registry: seq<Session>, e: Event, viewer: (StreamerType, Request) -> string)
    ensures var r := Dispatch(registry, e, viewer);
      && (r.Raised? <==> Raises(e))
      && (r.Done? ==> |registry| <= |r.registry| <= |registry| + 1 && r.registry[..|registry|] == registry)
  {
  }

  /**
   An unknown codec on `/stream` or `/stream_viewer` gets the not-found reply
   and creates no session; so does every path no handler is registered for.
   */
  lemma NotFoundCases(registry: seq<Session>, e: Event, viewer: (StreamerType, Request) -> string)
    ensures (e.request.path == "/stream" || e.request.path == "/stream_viewer") && StreamType(e.request) !in StreamTypes
            ==> Dispatch(registry, e, viewer) == Done(registry, NotFound)
    ensures e.request.path !in {"/", "/stream", "/stream_viewer", "/snapshot"}
            ==> Dispatch(registry, e, viewer) == Done(registry, NotFound)
  {
  }

  /** A log line of the server. */
  datatype LogLine = Info(text: string) | Warning(text: string)

  /** Whether the connection got a reply from the handler. */
  datatype Answer = Answered(reply: Reply) | Unanswered

  /** The result of serving one request: it always returns, whatever the handler did. */
  datatype Served = Served(registry: seq<Session>, answer: Answer, log: seq<LogLine>)

  /**
   The logging wrapper around every handler: log the request, run the handler,
   and when it raises a `std::exception` log a warning with its message and return
   normally. Such an error never leaves the wrapper; the registry is then the one
   the handler started from.
   */
  function ConnectionLogger(registry: seq<Session>, req: Request, result: HandlerResult): (s: Served)
    ensures |s.log| >= 1 && s.log[0] == Info("Handling Request: " + req.uri)
    ensures result.Raised? ==>
      s == Served(registry, Unanswered, [Info("Handling Request: " + req.uri),
                                         Warning("Error Handling Request: " + result.what)])
    ensures result.Done? ==> s == Served(result.registry, Answered(result.reply), [Info("Handling Request: " + req.uri)])
  {
    var handling := Info("Handling Request: " + req.uri);
    match result
    case Done(registry', reply) => Served(registry', Answered(reply), [handling])
    case Raised(what) => Served(registry, Unanswered, [handling, Warning("Error Handling Request: " + what)])
  }

  /** Serving one request on the current registry. */
  function Serve(registry: seq<Session>, e: Event, viewer: (StreamerType, Request) -> string): Served {
    ConnectionLogger(registry, e.request, Dispatch(registry, e, viewer))
  }

  /** Serving requests one after the other: the final registry and what each connection got. */
  function ServeAll(registry: seq<Session>, es: seq<Event>, viewer: (StreamerType, Request) -> string)
    : (r: (seq<Session>, seq<Answer>))
    ensures |r.1| == |es|
    decreases |es|
  {
    if es == [] then (registry, [])
    else
      var s := Serve(registry, es[0], viewer);
      var rest := ServeAll(s.registry, es[1..], viewer);
      (rest.0, [s.answer] + rest.1)
  }

  /**
   Fault isolation: a request whose handler raises is answered by nothing and
   changes nothing, so every other request, before or after it, is served
   exactly as if it had never been sent.
   */
  lemma {:induction false} FaultIsolation(registry: seq<Session>, before: seq<Event>, bad: Event, after: seq<Event>,
                                         viewer: (StreamerType, Request) -> string)
    requires Raises(bad)
    ensures var with := ServeAll(registry, before + [bad] + after, viewer);
      var without := ServeAll(registry, before + after, viewer);
      && with.0 == without.0
      && with.1 == without.1[..|before|] + [Unanswered] + without.1[|before|..]
    decreases |before|
  {
    if before == [] {
      assert before + [bad] + after == [bad] + after;
      assert before + after == after;
      RaisedIsSkipped(registry, bad, after, viewer);
    } else {
      var e := before[0];
      var s := Serve(registry, e, viewer);
      assert before + [bad] + after == [e] + (before[1..] + [bad] + after);
      assert before + after == [e] + (before[1..] + after);
      ServeAllCons(registry, e, before[1..] + [bad] + after, viewer);
      ServeAllCons(registry, e, before[1..] + after, viewer);
      FaultIsolation(s.registry, before[1..], bad, after, viewer);
      var restWith := ServeAll(s.registry, before[1..] + [bad] + after, viewer).1;
      var restWithout := ServeAll(s.registry, before[1..] + after, viewer).1;
      SkipShifts(s.answer, restWith, restWithout, |before| - 1);
    }
  }

  /** Putting one answer in front shifts the position of the missing answer by one. */
  lemma SkipShifts(a: Answer, with: seq<Answer>, without: seq<Answer>, k: nat)
    requires k <= |without|
    requires with == without[..k] + [Unanswered] + without[k..]
    ensures [a] + with == ([a] + without)[..k + 1] + [Unanswered] + ([a] + without)[k + 1..]
  {
    assert ([a] + without)[..k + 1] == [a] + without[..k];
    assert ([a] + without)[k + 1..] == without[k..];
  }

  /** A request whose handler raises leaves the registry to the requests after it. */
  lemma RaisedIsSkipped(registry: seq<Session>, bad: Event, after: seq<Event>, viewer: (StreamerType, Request) -> string)
    requires Raises(bad)
    ensures var rest := ServeAll(registry, after, viewer);
      ServeAll(registry, [bad] + after, viewer) == (rest.0, [Unanswered] + rest.1)
  {
    ServeAllCons(registry, bad, after, viewer);
    DispatchOutcome(registry, bad, viewer);
  }

  /** `ServeAll` on a non-empty sequence serves its first request, then the rest. */
  lemma ServeAllCons(registry: seq<Session>, e: Event, es: seq<Event>, viewer: (StreamerType, Request) -> string)
    ensures var s := Serve(registry, e, viewer);
      var rest := ServeAll(s.registry, es, viewer);
      ServeAll(registry, [e] + es, viewer) == (rest.0, [s.answer] + rest.1)
  {
    assert ([e] + es)[0] == e && ([e] + es)[1..] == es;
  }

  // ---------------------------------------------------------------------------
  // Requests and cleanup ticks interleaved
  // ---------------------------------------------------------------------------

  /** What can happen to the registry: a request is served, or the cleanup timer
      fires and its try-lock succeeds or not. */
  datatype Action = Handle(event: Event) | Tick(acquired: bool)

  function Step(registry: seq<Session>, a: Action, inactive: Session -> bool,
                viewer: (StreamerType, Request) -> string): seq<Session>
  {
    match a
    case Handle(e) => Serve(registry, e, viewer).registry
    case Tick(acquired) => Registry.Sweep(registry, inactive, acquired).registry
  }

  function Run(registry: seq<Session>, actions: seq<Action>, inactive: Session -> bool,
               viewer: (StreamerType, Request) -> string): seq<Session>
    decreases |actions|
  {
    if actions == [] then registry
    else Run(Step(registry, actions[0], inactive, viewer), actions[1..], inactive, viewer)
  }

  /** A single request or cleanup tick keeps every active session registered. */
  lemma StepKeepsActive(registry: seq<Session>, a: Action, inactive: Session -> bool,
                        viewer: (StreamerType, Request) -> string, s: Session)
    requires s in registry && !inactive(s)
    ensures s in Step(registry, a, inactive, viewer)
  {
    var next := Step(registry, a, inactive, viewer);
    match a
    case Handle(e) =>
      DispatchOutcome(registry, e, viewer);
      var k :| 0 <= k < |registry| && registry[k] == s;
      assert next[..|registry|][k] == s;
    case Tick(acquired) =>
  }

  /**
   No active session is ever lost: whatever mix of requests and cleanup ticks
   runs, a session that stays active remains registered, and a session is only
   ever removed by a sweep that found it inactive.
   */
  lemma {:induction false} ActiveSessionKept(registry: seq<Session>, actions: seq<Action>, inactive: Session -> bool,
                                            viewer: (StreamerType, Request) -> string, s: Session)
    requires s in registry && !inactive(s)
    ensures s in Run(registry, actions, inactive, viewer)
    decreases |actions|
  {
    if actions != [] {
      StepKeepsActive(registry, actions[0], inactive, viewer, s);
      ActiveSessionKept(Step(registry, actions[0], inactive, viewer), actions[1..], inactive, viewer, s);
    }
  }
}
