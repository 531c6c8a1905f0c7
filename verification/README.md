# web_video_server core, modelled in Dafny

This project models the request-handling core of `web_video_server`, a ROS node
that serves camera topics over HTTP. It models three things:

- **The topic directory served at `/`** (`Directory`). Topics are split into
  `sensor_msgs/Image` topics and `sensor_msgs/CameraInfo` topics. Each
  camera-info topic named `<base>camera_info` that ends in `/camera_info`
  opens a group under `<base>`. The group claims, in order, every remaining
  image topic that starts with that base, and each claimed topic is erased
  from the working list. The pairing is defined functionally (`Pair`,
  `Leftover`). `ListStreams` is the imperative two-loop scan with
  erase-as-you-go, and it is proved to write exactly the chunks of
  `Page(Pair(...))`.
- **The session registry and its periodic cleanup** (`Registry`). The
  registry is an ordered sequence of sessions. `Sweep` is the intended sweep:
  it keeps the active sessions in order and reports each inactive one.
  `RemoveIf` and `CleanupAsWritten` model the cleanup as written, built on
  libstdc++'s `std::remove_if`; see Findings.
- **Routing** (`Router`). This covers the codec table (`mjpeg`, `vp8`,
  `h264`), the handlers for `/stream`, `/stream_viewer` and `/snapshot`,
  dispatch by path with a not-found reply for any other path, and the logging
  wrapper that contains any `std::exception` a handler raises. The `Run` model
  interleaves requests with cleanup ticks.

The modules have these dependencies:

- `Seqs` provides order-preserving `Filter`/`Reject` and their algebra.
- `Text` provides `StartsWith`/`EndsWith`, with the meaning of
  `boost::algorithm::starts_with`/`ends_with`.
- `Directory` imports `Seqs` and `Text`.
- `Registry` imports `Seqs`.
- `Router` imports `Text`, `Directory` and `Registry`.

Some inputs of the server are parameters of the model:

- the bus's topic list (`topics`);
- whether a session's `isInactive` holds (`inactive`);
- whether the cleanup's `try_to_lock` succeeds (`acquired`);
- whether building and starting a streamer raises (`StartOutcome`);
- the HTML fragment of a codec's viewer (`viewer`).

A camera-info topic that does not end in `/camera_info` opens no group, but
src/web_video_server.cpp:223 still writes a closing `</li>` for an item it
never opened. `Directory.RenderEntry` renders such a topic as `["</li>"]`.

## Model

| member | source | states |
|---|---|---|
| Text.StartsWith | src/web_video_server.cpp:205-205 | Holds iff `prefix` is a prefix of `s`, as `boost::starts_with` decides. It has no contract of its own; `Text.StartsWithSplit` proves it means `s` is `prefix` followed by the rest. |
| Text.EndsWith | src/web_video_server.cpp:198-198 | Holds iff `suffix` is a suffix of `s`, as `boost::algorithm::ends_with` decides. It has no contract of its own; `Directory.StripLeaf` proves that a topic passing the `/camera_info` test is its base followed by `camera_info`. |
| Directory.ImageTopics | src/web_video_server.cpp:174-182 | The image list is no longer than the discovered topics. Its contents and order are stated by `Directory.PartitionMembership`, `Directory.PartitionAppend` and `Directory.PartitionCount`. |
| Directory.CameraInfoTopics | src/web_video_server.cpp:174-182 | The camera-info list is no longer than the discovered topics. Its contents and order are stated by the same three lemmas. |
| Directory.PartitionMembership | src/web_video_server.cpp:174-182 | A name is in the image list iff a discovered topic of the image type has it. It is in the camera-info list iff a topic that is not of the image type but is of the camera-info type has it. |
| Directory.PartitionAppend | src/web_video_server.cpp:174-182 | Splitting keeps discovery order: splitting `a + b` is splitting `a`, then `b`. |
| Directory.PartitionCount | src/web_video_server.cpp:174-182 | Every topic of one of the two types lands in exactly one list. No topic of any other type lands in either. |
| Directory.SplitTopics | src/web_video_server.cpp:174-182 | The first loop builds exactly the image-topic and camera-info-topic lists of the functional split. |
| Directory.StripLeaf | src/web_video_server.cpp:198-199 | The base of a `/camera_info` topic followed by `camera_info` gives back the topic, and the base ends in `/`. |
| Directory.Pair | src/web_video_server.cpp:197-224 | The directory has one line per camera-info topic, and every member of a group starts with the group's base. The members themselves are stated by `Directory.PairMembers`. |
| Directory.Leftover | src/web_video_server.cpp:203-220 | The image topics still in the working list after every group has claimed. It has no contract of its own; `Directory.LeftoverSurvivors` and `Directory.PairConserves` state what it holds. |
| Directory.PairShape | src/web_video_server.cpp:197-224 | There is one directory line per camera-info topic, in order. A line is a group exactly when the topic ends in `/camera_info`. The group's base plus `camera_info` is the topic. A non-group line carries the topic's name. Every group member is a discovered image topic. |
| Directory.PairMembers | src/web_video_server.cpp:203-220 | First match wins, in closed form. Group `i` holds exactly the image topics, in original order, that start with its base and with no earlier group's base. |
| Directory.FirstMatchWins | src/web_video_server.cpp:203-220 | A topic shown in group `i` starts with that group's base and not with the base of any earlier group. |
| Directory.PairConserves | src/web_video_server.cpp:203-220 | Erase-on-claim conserves topics. The topics shown, plus those left over, are the image topics with their multiplicities. At most as many items are shown as there are image topics. |
| Directory.LeftoverSurvivors | src/web_video_server.cpp:203-220 | The topics no group claimed are exactly those that match no group's base, in order. |
| Directory.ShownIffMatched | src/web_video_server.cpp:203-220 | An image topic is shown iff some group's base is a prefix of it. |
| Directory.ItemLinks | src/web_video_server.cpp:206-214 | A claimed topic's item has nine chunks. Both links carry the full topic name, and the label is the remainder after the base, so base + label is the topic. |
| Directory.ItemWrites | src/web_video_server.cpp:206-214 | The nine chunks written for one claimed topic. It has no contract of its own; `Directory.ItemLinks` states what they carry. |
| Directory.RenderItems | src/web_video_server.cpp:204-220 | The writes for the topics a group claimed: nine chunks per topic, each topic's chunks given by `Directory.ItemWrites`. `Directory.ItemLinks` states what they carry. |
| Directory.RenderEntry | src/web_video_server.cpp:197-224 | A group writes `<li>`, its base and `<ul>`, then nine chunks per member, then `</ul>` and `</li>`. A topic failing the suffix test writes only `</li>`. |
| Directory.Render | src/web_video_server.cpp:197-224 | The writes of the outer loop: each directory line's `RenderEntry`, in order. It has no contract of its own; `Directory.WriteDirectory` proves the loop writes exactly this. |
| Directory.Page | src/web_video_server.cpp:193-225 | The page head and `<ul>`, then `Render` of the lines, then the closing `</ul></body></html>`. It has no contract of its own; `Directory.WriteDirectory` and `Directory.ListStreams` prove the handler writes exactly this. |
| Directory.ClaimUnder | src/web_video_server.cpp:203-220 | The inner scan with in-place erase writes exactly the items of the topics that start with the base, in order. It leaves exactly the other topics, in order. |
| Directory.WriteEntry | src/web_video_server.cpp:197-224 | One iteration of the outer loop writes the rendering of the next directory line and passes on the working list that line leaves. |
| Directory.WriteDirectory | src/web_video_server.cpp:193-225 | The outer loop writes the page head, the rendering of every line of `Pair`, and the page tail. |
| Directory.DirectoryPage | src/web_video_server.cpp:193-225 | The page for the discovered topics: `Page` of `Pair` over the split lists. It has no contract of its own; `Directory.ListStreams` proves it is what the server writes. |
| Directory.ListStreams | src/web_video_server.cpp:164-226 | The `/` body, as the server writes it, equals the functional directory page for the discovered topics. |
| Directory.PairExample | src/web_video_server.cpp:197-224 | Example: `/cam1/` claims its raw image and `/cam2/` claims both of its topics. `/other/image_raw` is never shown. `/sensor/info` opens no group. |
| Registry.Insert | src/web_video_server.cpp:123-124 | Appending a session under the lock keeps every existing entry in place and puts the new one last. |
| Registry.Sweep | src/web_video_server.cpp:102-114 | Without the lock, nothing changes and nothing is reported. With it, the registry keeps exactly the active sessions and reports exactly the inactive ones. Sessions are conserved as a multiset. |
| Registry.SweepAppend | src/web_video_server.cpp:105-112 | The sweep keeps the original order of both the kept and the removed sessions. |
| Registry.SweepIdempotent | src/web_video_server.cpp:102-114 | After a sweep that acquired the lock, a second sweep removes nothing and leaves the registry unchanged. |
| Registry.SweepAllInactive | src/web_video_server.cpp:102-114 | When every session is inactive, a sweep empties the registry and reports all sessions in order. |
| Registry.InsertThenSweep | src/web_video_server.cpp:102-137 | A session inserted before a sweep is kept last if active. If inactive, it is reported after the other removed sessions. |
| Registry.MovedTail | src/web_video_server.cpp:105-110 | The slots after `remove_if`'s new end. There are as many as there are inactive sessions. Which of them are empty is stated by `Registry.RemoveIf` and `Registry.EmptyLoggedIffMoved`. |
| Registry.FindInactive | src/web_video_server.cpp:107 | The `find_if` step of `remove_if` returns the position of the first inactive session, or the end. |
| Registry.RemoveIf | src/web_video_server.cpp:105-107 | `remove_if` with moves: the new end is the number of active sessions, and the prefix holds them in order. The slots after the new end are `MovedTail`: inactive sessions that stayed, and empty moved-from pointers. |
| Registry.CleanupAsWritten | src/web_video_server.cpp:102-114 | The cleanup as written keeps the same registry as `Sweep`. The slots it logs are `MovedTail`, or nothing without the lock. When an empty slot is logged, the source crashes at line 109 before it erases anything; see Left out. |
| Registry.MovedFromTail | src/web_video_server.cpp:105-110 | On the two-session registry `[x, a]`, with `x` inactive and `a` active, the logged tail is one empty slot, and `x`, the session actually removed, is never logged. The statement for every registry is `Registry.EmptyLoggedIffMoved`. |
| Registry.EmptyLoggedIffMoved | src/web_video_server.cpp:105-110 | The cleanup logs an empty slot exactly when some active session follows an inactive one, i.e. whenever `remove_if` has to move anything. |
| Router.QueryParam | src/web_video_server.cpp:119-144 | A query parameter's value, or the given default when the request does not carry it. It has no contract of its own; `Router.StreamType` states the `type` default `mjpeg`, and `Router.HandleStreamViewer` states the `topic` default `""`. |
| Router.StreamType | src/web_video_server.cpp:119-119 | The codec asked for is the request's `type` parameter. Without one it is `mjpeg`, which is a known codec. Line 142 reads it the same way. |
| Router.HandleStream | src/web_video_server.cpp:117-129 | An unknown codec gets not-found and an unchanged registry. A known codec whose streamer starts gets exactly one new session of that streamer type, appended last. A known codec whose start raises propagates the error. |
| Router.HandleSnapshot | src/web_video_server.cpp:131-138 | A snapshot request appends exactly one snapshot session iff starting it does not raise. |
| Router.ViewerPage | src/web_video_server.cpp:152-157 | The viewer page opens with the topic as title and heading, and ends with the codec's fragment and `</body></html>`. |
| Router.HandleStreamViewer | src/web_video_server.cpp:140-162 | The registry never changes. The reply is not-found iff the codec is unknown; otherwise it is the viewer page for the requested topic, which defaults to empty. |
| Router.HandleListStreams | src/web_video_server.cpp:164-226 | Listing topics leaves the registry unchanged and replies with an HTML body. |
| Router.Dispatch | src/web_video_server.cpp:82-85 | Runs the handler registered for the request's path, or replies not-found. It has no contract of its own; `Router.DispatchOutcome` and `Router.NotFoundCases` state its outcomes. |
| Router.DispatchOutcome | src/web_video_server.cpp:82-85 | Whether a request raises depends on the request alone: a known-codec stream or a snapshot whose start raises. Every other request keeps the existing entries in place and adds at most one session. |
| Router.NotFoundCases | src/web_video_server.cpp:67-85 | An unknown codec on `/stream` or `/stream_viewer` gets not-found and creates no session. So does every path no handler is registered for. |
| Router.ConnectionLogger | src/web_video_server.cpp:53-62 | Every request is logged first with its URI. When the handler raises, a warning with the error text follows, the connection gets no reply, and the registry is the one the handler started from. |
| Router.Serve | src/web_video_server.cpp:87-88 | Serving one request runs the handler group inside the logging wrapper. It has no contract of its own; `Router.ConnectionLogger` states the wrapper and `Router.FaultIsolation` states what a raising request does to the others. |
| Router.FaultIsolation | src/web_video_server.cpp:53-62 | A request whose handler raises changes nothing. Every request before or after it is served exactly as if it had never been sent. |
| Router.ActiveSessionKept | src/web_video_server.cpp:102-137 | Under any interleaving of requests and cleanup ticks, a session that stays active remains registered. Ticks take the intended `Sweep`, so this holds of the source only while no tick would log an empty slot; see Left out. |

## Left out

- The ROS bus and image transport are not modelled. The topic list is a
  parameter, and `getTopics` is not part of this model.
- The 0.5 s cleanup timer, the multi-threaded spinner, `spin()` and the
  `port`/`server_threads`/`ros_threads` parameters (lines 65-100) are
  scheduling or I/O. `Router.Run` models the timer as arbitrary `Tick`
  actions interleaved with requests.
- The registry mutex is a boolean: whether `try_to_lock` succeeded. The
  blocking lock in the `/stream` and `/snapshot` handlers is taken to succeed.
  Concurrency itself is not modelled.
- Streamer internals are not part of this model: `create_streamer`, `start`,
  `isInactive`, `create_viewer` and `JpegSnapshotStreamer`. A session records
  what it was built from, and the rest are inputs.
- HTTP reply headers (lines 146-150, 185-191) are not modelled, nor are the
  text of the stock not-found reply or socket writes. A body is the sequence
  of chunks written.
- The handler group's path matching belongs to `http_server`, which is not
  part of this model. `Router.Dispatch` assumes an exact path match.
- `CleanupAsWritten` logs slots, not the `getTopic()` text of
  `Removed Stream:` lines. `getTopic` is not part of this model.
- Registry.CleanupAsWritten: a logged `Empty` slot stands for the null
  `shared_ptr` that line 109 dereferences through `getTopic()`. That is
  undefined behaviour, in practice a crash, and the erase at line 111 is never
  reached. `Registry.EmptyLoggedIffMoved` states exactly when it happens. The
  model logs the slot and carries on to the erase as if the log line had
  returned.
- Router.ActiveSessionKept: cleanup ticks in `Router.Run` take the intended
  `Registry.Sweep`, so the lemma does not cover the crash described for
  `Registry.CleanupAsWritten`.
- Router.ConnectionLogger: only errors derived from `std::exception`, the ones
  that carry a `what()` message, are modelled. The wrapper catches nothing else,
  so any other exception leaves it; a handler in this model never raises one.
- Router.HandleListStreams: it states only that the reply is HTML and the
  registry is unchanged. The content of the body is stated by
  `Directory.ListStreams`.

## Findings

| source | as written | input that shows it | evidently intended | confidence | as-written member | corrected member |
|---|---|---|---|---|---|---|
| src/web_video_server.cpp:105-112 | After `std::remove_if`, the cleanup logs every slot in `[new_end, end)`. With move semantics, that range holds moved-from empty pointers for relocated active sessions, which `(*itr)->getTopic()` then dereferences. Inactive sessions overwritten before the new end are never logged. | A registry `[X, A]` with `X` inactive and `A` active: the logged tail is one empty slot, and `X` is removed without being logged. | Log each removed inactive session once, then erase it, for example by partitioning or logging before removal. | not executed; medium (depends on the standard library moving elements in `remove_if`, as libstdc++ does from C++11 on) | Registry.CleanupAsWritten, Registry.MovedFromTail, Registry.EmptyLoggedIffMoved | Registry.Sweep |
