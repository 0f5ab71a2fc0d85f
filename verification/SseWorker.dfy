/**
 * The notification SharedWorker: a 100-entry FIFO buffer with a shadow set of ids, an unread
 * counter, and the messages posted to every connected tab. Opening, aborting and reconnecting the
 * stream are not part of this model; JSON decoding and `Number` are parameters.
 */
module SseWorker {
  import opened Arithmetic
  import opened JsString
  import opened SseFraming
  import opened Wrappers

  const MAX_BUFFER := 100

  datatype Notification = Notification(id: int, body: string)

  /** What `JSON.parse` makes of a data string, as far as `handleFrame` looks at it. */
  datatype Json = SyntaxError | NullValue | NoNumericId | Note(notification: Notification)

  datatype Env = Env(parseJson: string -> Json, toNumber: string -> int)

  datatype WorkerMessage =
    | Backfill(notifications: seq<Notification>)
    | Notify(notification: Notification)
    | Unread(count: int)
    | StreamFailed

  type Port = nat

  /**
   * `ports` holds every connected tab with the messages it has been sent, `parted` what was posted to
   * tabs that were not connected: a request from such a tab is still answered on its port.
   */
  datatype State = State(
    buffer: seq<Notification>,
    bufferIds: set<int>,
    unread: int,
    lastEventId: Option<int>,
    ports: map<Port, seq<WorkerMessage>>,
    parted: map<Port, seq<WorkerMessage>>)

  const START := State([], {}, 0, None, map[], map[])

  // ----- Steps -----

  function Broadcast(st: State, m: WorkerMessage): State {
    st.(ports := map p | p in st.ports :: st.ports[p] + [m])
  }

  function PostTo(st: State, port: Port, m: WorkerMessage): State {
    if port in st.ports then st.(ports := st.ports[port := st.ports[port] + [m]])
    else if port in st.parted then st.(parted := st.parted[port := st.parted[port] + [m]])
    else st.(parted := st.parted[port := [m]])
  }

  function Evict(st: State): State
    decreases |st.buffer|
  {
    if |st.buffer| > MAX_BUFFER then
      Evict(st.(buffer := st.buffer[1..], bufferIds := st.bufferIds - {st.buffer[0].id}))
    else st
  }

  function Push(st: State, n: Notification): State {
    if n.id in st.bufferIds then st
    else Evict(st.(buffer := st.buffer + [n], bufferIds := st.bufferIds + {n.id}))
  }

  datatype Outcome = Outcome(state: State, threw: bool)

  function Resume(env: Env, st: State, id: Option<string>): State {
    if id.Some? && id.value != "" then st.(lastEventId := Some(env.toNumber(id.value))) else st
  }

  function Deliver(st: State, n: Notification): State {
    var counted :=
      if n.id in st.bufferIds then st
      else Broadcast(Push(st, n).(unread := st.unread + 1), Unread(st.unread + 1));
    Broadcast(counted, Notify(n))
  }

  /** `handleFrame` after the frame has been parsed; a JSON `null` makes it throw. */
  function HandleParsed(env: Env, st: State, parsed: Option<Parsed>): Outcome {
    if parsed.None? then Outcome(st, false)
    else
      match env.parseJson(parsed.value.data)
      case SyntaxError => Outcome(st, false)
      case NullValue => Outcome(st, true)
      case NoNumericId => Outcome(st, false)
      case Note(n) => Outcome(Deliver(Resume(env, st, parsed.value.id), n), false)
  }

  function HandleFrame(env: Env, st: State, frame: string): Outcome {
    HandleParsed(env, st, ReadFrame(frame))
  }

  /** Handling one parsed frame after the other, up to and including the first that throws. */
  function HandleAllParsed(env: Env, st: State, frames: seq<Option<Parsed>>): Outcome {
    if frames == [] then Outcome(st, false)
    else
      var before := HandleAllParsed(env, st, frames[..|frames| - 1]);
      if before.threw then before else HandleParsed(env, before.state, frames[|frames| - 1])
  }

  /** `frames.map(read)` */
  function MapFrames(read: string -> Option<Parsed>, frames: seq<string>): (r: seq<Option<Parsed>>)
    ensures |r| == |frames| && forall i :: 0 <= i < |r| ==> r[i] == read(frames[i])
  {
    if frames == [] then [] else MapFrames(read, frames[..|frames| - 1]) + [read(frames[|frames| - 1])]
  }

  function ReadFrames(frames: seq<string>): seq<Option<Parsed>> {
    MapFrames(ReadFrame, frames)
  }

  function HandleFrames(env: Env, st: State, frames: seq<string>): Outcome {
    HandleAllParsed(env, st, ReadFrames(frames))
  }

  /** Tell the tabs if the response ended with a throw. */
  function Close(outcome: Outcome): State {
    if outcome.threw then Broadcast(outcome.state, StreamFailed) else outcome.state
  }

  /** A whole response: if a frame throws, the tabs are told and the rest is not read. */
  function Stream(env: Env, st: State, text: string): State {
    Close(HandleFrames(env, st, FramesOf(text)))
  }

  datatype TabRequest =
    | Connect(lastEventId: Option<int>, unread: int)
    | MarkRead(ids: seq<int>)
    | MarkAllRead
    | SetUnread(count: int)
    | Disconnect

  function CountIn(ids: seq<int>, known: set<int>): nat {
    if ids == [] then 0
    else CountIn(ids[..|ids| - 1], known) + if ids[|ids| - 1] in known then 1 else 0
  }

  function HandleRequest(st: State, port: Port, request: TabRequest): State {
    match request
    case Connect(lastEventId, unread) =>
      PostTo(PostTo(st.(lastEventId := lastEventId, unread := unread), port, Unread(unread)),
             port, Backfill(st.buffer))
    case MarkRead(ids) =>
      var left := Max(st.unread - CountIn(ids, st.bufferIds), 0);
      Broadcast(st.(unread := left), Unread(left))
    case MarkAllRead => Broadcast(st.(unread := 0), Unread(0))
    case SetUnread(count) => Broadcast(st.(unread := count), Unread(count))
    case Disconnect => st.(ports := st.ports - {port})
  }

  function Attach(st: State, port: Port): State {
    var added := if port in st.ports then st else st.(ports := st.ports[port := []]);
    PostTo(PostTo(added, port, Backfill(st.buffer)), port, Unread(st.unread))
  }

  datatype Event =
    | TabAttached(port: Port)
    | TabRequested(port: Port, request: TabRequest)
    | FrameArrived(frame: string)

  function Step(env: Env, st: State, event: Event): State {
    match event
    case TabAttached(port) => Attach(st, port)
    case TabRequested(port, request) => HandleRequest(st, port, request)
    case FrameArrived(frame) =>
      Close(HandleFrame(env, st, frame))
  }

  function RunFrom(env: Env, st: State, events: seq<Event>): State {
    if events == [] then st
    else Step(env, RunFrom(env, st, events[..|events| - 1]), events[|events| - 1])
  }

  function Run(env: Env, events: seq<Event>): State {
    RunFrom(env, START, events)
  }

  // ----- Frames in batches and chunks -----

  /** Frames can be handled in batches. */
  lemma {:induction false} HandleInBatches(env: Env, st: State, first: seq<Option<Parsed>>, second: seq<Option<Parsed>>)
    ensures var before := HandleAllParsed(env, st, first);
            HandleAllParsed(env, st, first + second)
              == (if before.threw then before else HandleAllParsed(env, before.state, second))
    decreases |second|
  {
    if second == [] {
      assert first + second == first;
    } else {
      var all := first + second;
      HandleInBatches(env, st, first, second[..|second| - 1]);
      assert all[..|all| - 1] == first + second[..|second| - 1];
    }
  }

  lemma MapFramesConcat(read: string -> Option<Parsed>, first: seq<string>, second: seq<string>)
    ensures MapFrames(read, first + second) == MapFrames(read, first) + MapFrames(read, second)
  {
  }

  lemma HandleFramesInBatches(env: Env, st: State, first: seq<string>, second: seq<string>)
    ensures var before := HandleFrames(env, st, first);
            HandleFrames(env, st, first + second)
              == (if before.threw then before else HandleFrames(env, before.state, second))
  {
    MapFramesConcat(ReadFrame, first, second);
    HandleInBatches(env, st, ReadFrames(first), ReadFrames(second));
  }

  /** What one chunk adds to the frames handled so far. */
  lemma HandleChunk(env: Env, st: State, chunks: seq<string>, i: nat)
    requires i < |chunks|
    ensures var seen, next := Flatten(chunks[..i]), Flatten(chunks[..i + 1]);
            var before, arrived := HandleFrames(env, st, FramesOf(seen)), RestOf(seen) + chunks[i];
            && RestOf(next) == RestOf(arrived)
            && HandleFrames(env, st, FramesOf(next))
               == (if before.threw then before else HandleFrames(env, before.state, FramesOf(arrived)))
  {
    var seen := Flatten(chunks[..i]);
    assert chunks[..i + 1][..i] == chunks[..i];
    FeedChunk(seen, chunks[i]);
    HandleFramesInBatches(env, st, FramesOf(seen), FramesOf(RestOf(seen) + chunks[i]));
  }

  /** Frames after the one that throws are never looked at. */
  lemma ThrowIsFinal(env: Env, st: State, frames: seq<string>, all: seq<string>)
    requires frames <= all && HandleFrames(env, st, frames).threw
    ensures HandleFrames(env, st, all) == HandleFrames(env, st, frames)
  {
    assert all == frames + all[|frames|..];
    HandleFramesInBatches(env, st, frames, all[|frames|..]);
  }

  lemma {:induction false} FramesGrow(chunks: seq<string>, i: nat)
    requires i <= |chunks|
    ensures FramesOf(Flatten(chunks[..i])) <= FramesOf(Flatten(chunks))
    decreases |chunks| - i
  {
    if i == |chunks| {
      assert chunks[..i] == chunks;
    } else {
      assert chunks[..i + 1][..i] == chunks[..i];
      FeedChunk(Flatten(chunks[..i]), chunks[i]);
      FramesGrow(chunks, i + 1);
    }
  }

  /** The frames of the first `i` chunks decide the outcome if one throws or `i` is everything. */
  lemma StreamEnds(env: Env, st: State, chunks: seq<string>, i: nat)
    requires i <= |chunks|
    requires i == |chunks| || HandleFrames(env, st, FramesOf(Flatten(chunks[..i]))).threw
    ensures HandleFrames(env, st, FramesOf(Flatten(chunks))) == HandleFrames(env, st, FramesOf(Flatten(chunks[..i])))
  {
    if i == |chunks| {
      assert chunks[..i] == chunks;
    } else {
      FramesGrow(chunks, i);
      ThrowIsFinal(env, st, FramesOf(Flatten(chunks[..i])), FramesOf(Flatten(chunks)));
    }
  }

  lemma HandleOneMore(env: Env, st: State, frames: seq<string>, frame: string)
    requires !HandleFrames(env, st, frames).threw
    ensures HandleFrames(env, st, frames + [frame]) == HandleFrame(env, HandleFrames(env, st, frames).state, frame)
  {
    assert ReadFrames(frames + [frame]) == ReadFrames(frames) + [ReadFrame(frame)];
  }

  // ----- The worker itself -----

  class Worker {
    const env: Env
    var buffer: seq<Notification>
    var bufferIds: set<int>
    var unread: int
    var lastEventId: Option<int>
    var ports: map<Port, seq<WorkerMessage>>
    var parted: map<Port, seq<WorkerMessage>>

    ghost function Abs(): State
      reads this
    {
      State(buffer, bufferIds, unread, lastEventId, ports, parted)
    }

    constructor (env: Env)
      ensures this.env == env && Abs() == START
    {
      this.env := env;
      buffer, bufferIds, unread, lastEventId, ports, parted := [], {}, 0, None, map[], map[];
    }

    method SendToAll(m: WorkerMessage)
      modifies this`ports
      ensures Abs() == Broadcast(old(Abs()), m)
    {
      ports := map p | p in ports :: ports[p] + [m];
    }

    method PostMessage(port: Port, m: WorkerMessage)
      modifies this`ports, this`parted
      ensures Abs() == PostTo(old(Abs()), port, m)
    {
      if port in ports {
        ports := ports[port := ports[port] + [m]];
      } else if port in parted {
        parted := parted[port := parted[port] + [m]];
      } else {
        parted := parted[port := [m]];
      }
    }

    method PushToBuffer(n: Notification)
      modifies this`buffer, this`bufferIds
      ensures Abs() == Push(old(Abs()), n)
    {
      if n.id in bufferIds {
        return;
      }
      buffer := buffer + [n];
      bufferIds := bufferIds + {n.id};
      while |buffer| > MAX_BUFFER
        invariant Evict(Abs()) == Push(old(Abs()), n)
        decreases |buffer|
      {
        var evicted := buffer[0];
        buffer := buffer[1..];
        bufferIds := bufferIds - {evicted.id};
      }
    }

    method HandleFrameText(frame: string) returns (threw: bool)
      modifies this
      ensures Outcome(Abs(), threw) == HandleFrame(env, old(Abs()), frame)
    {
      var parsed := ParseFrame(frame);
      if parsed.None? {
        return false;
      }
      var json := env.parseJson(parsed.value.data);
      if !json.Note? {
        return json.NullValue?;
      }
      var n := json.notification;
      if parsed.value.id.Some? && parsed.value.id.value != "" {
        lastEventId := Some(env.toNumber(parsed.value.id.value));
      }
      ghost var resumed := Abs();
      assert resumed == Resume(env, old(Abs()), parsed.value.id);
      if n.id !in bufferIds {
        PushToBuffer(n);
        unread := unread + 1;
        SendToAll(Unread(unread));
      }
      SendToAll(Notify(n));
      assert Abs() == Deliver(resumed, n);
      threw := false;
    }

    /** `for (const frame of frames) handleFrame(frame)`, left early if a frame throws. */
    method HandleAll(frames: seq<string>) returns (threw: bool)
      modifies this
      ensures Outcome(Abs(), threw) == HandleFrames(env, old(Abs()), frames)
    {
      threw := false;
      var i := 0;
      while i < |frames| && !threw
        invariant 0 <= i <= |frames|
        invariant Outcome(Abs(), threw) == HandleFrames(env, old(Abs()), frames[..i])
      {
        assert frames[..i + 1] == frames[..i] + [frames[i]];
        HandleOneMore(env, old(Abs()), frames[..i], frames[i]);
        threw := HandleFrameText(frames[i]);
        i := i + 1;
      }
      assert frames[..|frames|] == frames;
      if threw {
        ThrowIsFinal(env, old(Abs()), frames[..i], frames);
      }
    }

    /** The read loop of one response. How the text was cut into chunks makes no difference. */
    method ReadStream(chunks: seq<string>)
      modifies this
      ensures Abs() == Stream(env, old(Abs()), Flatten(chunks))
    {
      var buffered := "";
      var threw := false;
      var i := 0;
      assert FramesOf("") == [] && RestOf("") == "";
      while i < |chunks| && !threw
        invariant 0 <= i <= |chunks|
        invariant Outcome(Abs(), threw) == HandleFrames(env, old(Abs()), FramesOf(Flatten(chunks[..i])))
        invariant buffered == RestOf(Flatten(chunks[..i]))
      {
        HandleChunk(env, old(Abs()), chunks, i);
        buffered := buffered + chunks[i];
        threw := HandleAll(FramesOf(buffered));
        buffered := RestOf(buffered);
        i := i + 1;
      }
      StreamEnds(env, old(Abs()), chunks, i);
      if threw {
        SendToAll(StreamFailed);
      }
    }

    method OnConnect(port: Port)
      modifies this
      ensures Abs() == Step(env, old(Abs()), TabAttached(port))
    {
      if port !in ports {
        ports := ports[port := []];
      }
      PostMessage(port, Backfill(buffer));
      PostMessage(port, Unread(unread));
    }

    method OnRequest(port: Port, request: TabRequest)
      modifies this
      ensures Abs() == Step(env, old(Abs()), TabRequested(port, request))
    {
      match request
      case Connect(id, count) =>
        lastEventId := id;
        unread := count;
        PostMessage(port, Unread(unread));
        PostMessage(port, Backfill(buffer));
      case MarkRead(ids) =>
        var cleared := 0;
        for i := 0 to |ids|
          invariant cleared == CountIn(ids[..i], bufferIds)
        {
          assert ids[..i + 1][..i] == ids[..i];
          if ids[i] in bufferIds {
            cleared := cleared + 1;
          }
        }
        assert ids[..|ids|] == ids;
        unread := Max(unread - cleared, 0);
        SendToAll(Unread(unread));
      case MarkAllRead =>
        unread := 0;
        SendToAll(Unread(unread));
      case SetUnread(count) =>
        unread := count;
        SendToAll(Unread(unread));
      case Disconnect =>
        ports := ports - {port};
    }
  }

  // ----- What a stream delivers -----

  function Meanings(items: seq<Item>): (r: seq<Option<Parsed>>)
    ensures |r| == |items|
  {
    seq(|items|, i requires 0 <= i < |items| => Meaning(items[i]))
  }

  /**
   * End to end: however the wire text of any list of faithful messages and comments is cut into
   * chunks, the worker ends up as if each message had been handed to it directly, in order.
   */
  lemma StreamDeliversItems(env: Env, st: State, items: seq<Item>, chunks: seq<string>)
    requires forall item :: item in items ==> Sendable(item) && Faithful(item)
    requires Flatten(chunks) == WireText(items)
    ensures Stream(env, st, Flatten(chunks)) == Close(HandleAllParsed(env, st, Meanings(items)))
  {
    FramesOfWireText(items);
    forall i | 0 <= i < |items|
      ensures ReadFrame(FrameTexts(items)[i]) == Meaning(items[i])
    {
      assert items[i] in items;
      FrameRoundTrip(items[i]);
    }
    assert ReadFrames(FrameTexts(items)) == Meanings(items);
  }

  function FrameEvents(frames: seq<string>): (events: seq<Event>)
    ensures |events| == |frames|
  {
    if frames == [] then [] else FrameEvents(frames[..|frames| - 1]) + [FrameArrived(frames[|frames| - 1])]
  }

  /** Handling `frames` has the same effect as the run of the first `k` frame events. */
  ghost predicate IsRunOf(env: Env, st: State, frames: seq<string>, k: nat) {
    && k <= |frames|
    && Close(HandleFrames(env, st, frames)) == RunFrom(env, st, FrameEvents(frames[..k]))
    && (!HandleFrames(env, st, frames).threw ==> k == |frames|)
  }

  lemma RunStopped(env: Env, st: State, frames: seq<string>, k: nat)
    requires frames != [] && IsRunOf(env, st, frames[..|frames| - 1], k)
    requires HandleFrames(env, st, frames[..|frames| - 1]).threw
    ensures IsRunOf(env, st, frames, k)
  {
    assert frames[..|frames| - 1][..k] == frames[..k];
    ThrowIsFinal(env, st, frames[..|frames| - 1], frames);
  }

  lemma RunOneMore(env: Env, st: State, frames: seq<string>, frame: string)
    ensures RunFrom(env, st, FrameEvents(frames + [frame]))
         == Close(HandleFrame(env, RunFrom(env, st, FrameEvents(frames)), frame))
  {
    assert (frames + [frame])[..|frames|] == frames;
    var events := FrameEvents(frames + [frame]);
    assert events == FrameEvents(frames) + [FrameArrived(frame)];
    assert events[..|frames|] == FrameEvents(frames);
  }

  lemma RunGoesOn(env: Env, st: State, frames: seq<string>)
    requires frames != [] && IsRunOf(env, st, frames[..|frames| - 1], |frames| - 1)
    requires !HandleFrames(env, st, frames[..|frames| - 1]).threw
    ensures IsRunOf(env, st, frames, |frames|)
  {
    var earlier, frame := frames[..|frames| - 1], frames[|frames| - 1];
    assert earlier[..|earlier|] == earlier && frames[..|frames|] == frames && earlier + [frame] == frames;
    HandleOneMore(env, st, earlier, frame);
    RunOneMore(env, st, earlier, frame);
  }

  /** A response is a run of frame events, so what holds of every run holds after every response. */
  lemma {:induction false} StreamIsRun(env: Env, st: State, frames: seq<string>)
    ensures exists k :: IsRunOf(env, st, frames, k)
    decreases |frames|
  {
    if frames == [] {
      assert IsRunOf(env, st, frames, 0);
    } else {
      var earlier := frames[..|frames| - 1];
      StreamIsRun(env, st, earlier);
      var k :| IsRunOf(env, st, earlier, k);
      if HandleFrames(env, st, earlier).threw {
        RunStopped(env, st, frames, k);
      } else {
        RunGoesOn(env, st, frames);
      }
    }
  }

  // ----- The buffer -----

  function LastN<T>(s: seq<T>, n: nat): seq<T> {
    if |s| <= n then s else s[|s| - n..]
  }

  function Ids(ns: seq<Notification>): set<int> {
    set n | n in ns :: n.id
  }

  function OfferedBy(env: Env, event: Event): (ns: seq<Notification>)
    ensures |ns| <= 1
  {
    if event.FrameArrived? && ReadFrame(event.frame).Some? then
      match env.parseJson(ReadFrame(event.frame).value.data)
      case Note(n) => [n]
      case _ => []
    else []
  }

  /** The notifications that arrive in a run, duplicates included. */
  function Offered(env: Env, events: seq<Event>): seq<Notification> {
    if events == [] then []
    else Offered(env, events[..|events| - 1]) + OfferedBy(env, events[|events| - 1])
  }

  /** The reference: drop what repeats an id among the last 100 kept notifications. */
  function Dedup(ns: seq<Notification>): seq<Notification> {
    if ns == [] then []
    else
      var kept, n := Dedup(ns[..|ns| - 1]), ns[|ns| - 1];
      if n.id in Ids(LastN(kept, MAX_BUFFER)) then kept else kept + [n]
  }

  /** Two kept notifications with one id have at least 100 others between them. */
  ghost predicate Spaced(log: seq<Notification>) {
    forall i, j :: 0 <= i < j < |log| && log[i].id == log[j].id ==> j - i - 1 >= MAX_BUFFER
  }

  ghost predicate BufferOf(st: State, log: seq<Notification>) {
    st.buffer == LastN(log, MAX_BUFFER) && st.bufferIds == Ids(st.buffer) && Spaced(log)
  }

  lemma SpacedPush(log: seq<Notification>, n: Notification)
    requires Spaced(log) && n.id !in Ids(LastN(log, MAX_BUFFER))
    ensures Spaced(log + [n])
  {
    var window := LastN(log, MAX_BUFFER);
    forall i | |log| - |window| <= i < |log|
      ensures log[i].id != n.id
    {
      assert log[i] == window[i - (|log| - |window|)];
    }
  }

  /** Evicting the oldest entry takes its id out of the set, because no other entry has it. */
  lemma EvictOldest(grown: State)
    requires |grown.buffer| == MAX_BUFFER + 1 && grown.bufferIds == Ids(grown.buffer)
    requires forall i :: 1 <= i < |grown.buffer| ==> grown.buffer[i].id != grown.buffer[0].id
    ensures Evict(grown) == grown.(buffer := grown.buffer[1..], bufferIds := Ids(grown.buffer[1..]))
  {
    var oldest, rest := grown.buffer[0], grown.buffer[1..];
    assert grown.buffer == [oldest] + rest;
    assert oldest.id !in Ids(rest);
    assert grown.bufferIds - {oldest.id} == Ids(rest);
    var evicted := grown.(buffer := rest, bufferIds := grown.bufferIds - {oldest.id});
    assert Evict(evicted) == evicted;
  }

  lemma IdsOneMore(ns: seq<Notification>, n: Notification)
    ensures Ids(ns + [n]) == Ids(ns) + {n.id}
  {
    assert forall m :: m in ns + [n] <==> m in ns || m == n;
  }

  /** `pushToBuffer` appends to the log and slides the window, and the id set follows. */
  lemma PushKeepsBuffer(st: State, log: seq<Notification>, n: Notification)
    requires BufferOf(st, log) && n.id !in st.bufferIds
    ensures BufferOf(Push(st, n), log + [n])
    ensures Push(st, n) == st.(buffer := LastN(st.buffer + [n], MAX_BUFFER),
                               bufferIds := Ids(LastN(st.buffer + [n], MAX_BUFFER)))
  {
    var grown := st.(buffer := st.buffer + [n], bufferIds := st.bufferIds + {n.id});
    SpacedPush(log, n);
    IdsOneMore(st.buffer, n);
    if |grown.buffer| > MAX_BUFFER {
      var oldest := |log| - MAX_BUFFER;
      assert grown.buffer == (log + [n])[oldest..];
      EvictOldest(grown);
      assert grown.buffer[1..] == LastN(log + [n], MAX_BUFFER) == LastN(grown.buffer, MAX_BUFFER);
    }
  }

  /** What one more arrival does to the deduplicated log. */
  function DedupStep(kept: seq<Notification>, offered: seq<Notification>): seq<Notification>
    requires |offered| <= 1
  {
    if offered == [] || offered[0].id in Ids(LastN(kept, MAX_BUFFER)) then kept else kept + offered
  }

  lemma DedupOneMore(ns: seq<Notification>, offered: seq<Notification>)
    requires |offered| <= 1
    ensures Dedup(ns + offered) == DedupStep(Dedup(ns), offered)
  {
    if offered == [] {
      assert ns + offered == ns;
    } else {
      assert (ns + offered)[..|ns|] == ns && offered == [offered[0]];
    }
  }

  lemma DeliverKeepsBuffer(st: State, log: seq<Notification>, n: Notification)
    requires BufferOf(st, log)
    ensures BufferOf(Deliver(st, n), DedupStep(log, [n]))
  {
    if n.id !in st.bufferIds {
      PushKeepsBuffer(st, log, n);
    }
  }

  lemma StepKeepsBuffer(env: Env, st: State, log: seq<Notification>, event: Event)
    requires BufferOf(st, log)
    ensures BufferOf(Step(env, st, event), DedupStep(log, OfferedBy(env, event)))
  {
    if OfferedBy(env, event) != [] {
      var n := OfferedBy(env, event)[0];
      DeliverKeepsBuffer(Resume(env, st, ReadFrame(event.frame).value.id), log, n);
    } else {
      assert Step(env, st, event).buffer == st.buffer && Step(env, st, event).bufferIds == st.bufferIds;
    }
  }

  /**
   * In every reachable state the buffer is the last min(100, n) entries of the deduplicated log of
   * arrivals, whatever the tabs do in between, and the id set is exactly the buffer's.
   */
  lemma {:induction false} BufferRefinesLog(env: Env, events: seq<Event>)
    ensures BufferOf(Run(env, events), Dedup(Offered(env, events)))
  {
    if events != [] {
      var earlier, event := events[..|events| - 1], events[|events| - 1];
      BufferRefinesLog(env, earlier);
      StepKeepsBuffer(env, Run(env, earlier), Dedup(Offered(env, earlier)), event);
      DedupOneMore(Offered(env, earlier), OfferedBy(env, event));
    }
  }

  lemma WindowIsBounded(st: State, log: seq<Notification>)
    requires BufferOf(st, log)
    ensures |st.buffer| == Min(MAX_BUFFER, |log|)
    ensures forall i, j :: 0 <= i < j < |st.buffer| ==> st.buffer[i].id != st.buffer[j].id
  {
    var buffer := st.buffer;
    forall i, j | 0 <= i < j < |buffer|
      ensures buffer[i].id != buffer[j].id
    {
      assert buffer[i] == log[|log| - |buffer| + i] && buffer[j] == log[|log| - |buffer| + j];
    }
  }

  /** Hence the buffer holds min(100, n) entries with distinct ids. */
  lemma BufferIsBounded(env: Env, events: seq<Event>, st: State)
    requires st == Run(env, events)
    ensures |st.buffer| == Min(MAX_BUFFER, |Dedup(Offered(env, events))|)
    ensures forall i, j :: 0 <= i < j < |st.buffer| ==> st.buffer[i].id != st.buffer[j].id
  {
    BufferRefinesLog(env, events);
    WindowIsBounded(st, Dedup(Offered(env, events)));
  }

  // ----- What the counter counts -----

  /** The positions in `ids` that hold an id of the window. */
  function ListedAt(ids: seq<int>, window: seq<Notification>): set<int> {
    set i | 0 <= i < |ids| && ids[i] in Ids(window)
  }

  lemma {:induction false} CountIsListed(ids: seq<int>, window: seq<Notification>)
    ensures CountIn(ids, Ids(window)) == |ListedAt(ids, window)|
  {
    if ids == [] {
      assert ListedAt(ids, window) == {};
    } else {
      var shorter, last := ids[..|ids| - 1], |ids| - 1;
      CountIsListed(shorter, window);
      assert ListedAt(ids, window) == ListedAt(shorter, window) + if ids[last] in Ids(window) then {last} else {};
      assert last !in ListedAt(shorter, window);
    }
  }

  /** What one event does to the count, in terms of the deduplicated log before and after it. */
  function BadgeStep(before: int, log: seq<Notification>, grown: seq<Notification>, event: Event): int {
    match event
    case FrameArrived(_) => before + |grown| - |log|
    case TabAttached(_) => before
    case TabRequested(_, request) =>
      match request
      case Connect(_, unread) => unread
      case MarkRead(ids) => Max(before - |ListedAt(ids, LastN(log, 100))|, 0)
      case MarkAllRead => 0
      case SetUnread(count) => count
      case Disconnect => before
  }

  /**
   * The reference for the unread count, from the log of arrivals alone: a frame adds the notifications by which the
   * deduplicated log grows, MARK_READ takes off as many as it lists of the last 100, and the others set it.
   */
  function Badge(env: Env, events: seq<Event>): int {
    if events == [] then 0
    else
      var earlier := events[..|events| - 1];
      BadgeStep(Badge(env, earlier), Dedup(Offered(env, earlier)), Dedup(Offered(env, events)), events[|events| - 1])
  }

  lemma DeliverCounts(st: State, log: seq<Notification>, n: Notification)
    requires BufferOf(st, log)
    ensures Deliver(st, n).unread == st.unread + |DedupStep(log, [n])| - |log|
  {
    if n.id !in st.bufferIds {
      PushKeepsBuffer(st, log, n);
    }
  }

  lemma StepCounts(env: Env, st: State, log: seq<Notification>, event: Event)
    requires BufferOf(st, log)
    ensures Step(env, st, event).unread
         == BadgeStep(st.unread, log, DedupStep(log, OfferedBy(env, event)), event)
  {
    if OfferedBy(env, event) != [] {
      DeliverCounts(Resume(env, st, ReadFrame(event.frame).value.id), log, OfferedBy(env, event)[0]);
    } else if event.TabRequested? && event.request.MarkRead? {
      CountIsListed(event.request.ids, LastN(log, MAX_BUFFER));
    }
  }

  /** In every reachable state the unread count is the reference's. */
  lemma {:induction false} UnreadFollowsLog(env: Env, events: seq<Event>)
    ensures Run(env, events).unread == Badge(env, events)
  {
    if events != [] {
      var earlier, event := events[..|events| - 1], events[|events| - 1];
      UnreadFollowsLog(env, earlier);
      BufferRefinesLog(env, earlier);
      DedupOneMore(Offered(env, earlier), OfferedBy(env, event));
      StepCounts(env, Run(env, earlier), Dedup(Offered(env, earlier)), event);
    }
  }

  lemma {:induction false} BadgeOfFrames(env: Env, events: seq<Event>)
    requires forall e :: e in events ==> !e.TabRequested?
    ensures Badge(env, events) == |Dedup(Offered(env, events))|
  {
    if events != [] {
      var earlier, event := events[..|events| - 1], events[|events| - 1];
      assert event in events && forall e :: e in earlier ==> e in events;
      BadgeOfFrames(env, earlier);
      assert event.TabAttached? ==> Offered(env, events) == Offered(env, earlier);
    }
  }

  /** Without requests in between, the count is the number of different notifications that arrived. */
  lemma {:induction false} FramesAreCounted(env: Env, events: seq<Event>)
    requires forall e :: e in events ==> !e.TabRequested?
    ensures Run(env, events).unread == |Dedup(Offered(env, events))|
  {
    UnreadFollowsLog(env, events);
    BadgeOfFrames(env, events);
  }

  // ----- Where the stream is resumed -----

  /** The resumption point that an event sets, if it sets one. */
  function SetsPoint(env: Env, event: Event): Option<Option<int>> {
    match event
    case TabRequested(_, Connect(lastEventId, _)) => Some(lastEventId)
    case FrameArrived(frame) =>
      var parsed := ReadFrame(frame);
      if OfferedBy(env, event) == [] || parsed.value.id.None? || parsed.value.id.value == "" then None
      else Some(Some(env.toNumber(parsed.value.id.value)))
    case _ => None
  }

  lemma {:induction false} EvictKeepsPoint(st: State)
    ensures Evict(st).lastEventId == st.lastEventId
    decreases |st.buffer|
  {
    if |st.buffer| > MAX_BUFFER {
      EvictKeepsPoint(st.(buffer := st.buffer[1..], bufferIds := st.bufferIds - {st.buffer[0].id}));
    }
  }

  lemma DeliverKeepsPoint(st: State, n: Notification)
    ensures Deliver(st, n).lastEventId == st.lastEventId
  {
    EvictKeepsPoint(st.(buffer := st.buffer + [n], bufferIds := st.bufferIds + {n.id}));
  }

  lemma PointOfStep(env: Env, st: State, event: Event)
    ensures Step(env, st, event).lastEventId
         == if SetsPoint(env, event).Some? then SetsPoint(env, event).value else st.lastEventId
  {
    if OfferedBy(env, event) != [] {
      var resumed := Resume(env, st, ReadFrame(event.frame).value.id);
      DeliverKeepsPoint(resumed, OfferedBy(env, event)[0]);
    }
  }

  /**
   * After any run the stream resumes from the last delivered notification that came with an id, or from what a
   * later CONNECT said.
   */
  lemma {:induction false} ResumesFromLast(env: Env, events: seq<Event>, k: nat)
    requires k < |events| && SetsPoint(env, events[k]).Some?
    requires forall i :: k < i < |events| ==> SetsPoint(env, events[i]).None?
    ensures Run(env, events).lastEventId == SetsPoint(env, events[k]).value
  {
    var earlier, event := events[..|events| - 1], events[|events| - 1];
    PointOfStep(env, Run(env, earlier), event);
    if k < |events| - 1 {
      ResumesFromLast(env, earlier, k);
    }
  }

  // ----- What the tabs see -----

  function ReplayStep(before: seq<Notification>, m: WorkerMessage): seq<Notification> {
    match m
    case Backfill(ns) => ns
    case Notify(n) => if n.id in Ids(before) then before else LastN(before + [n], MAX_BUFFER)
    case _ => before
  }

  /** The buffer as a tab can rebuild it from the messages it was sent. */
  function Replay(inbox: seq<WorkerMessage>): seq<Notification> {
    if inbox == [] then []
    else ReplayStep(Replay(inbox[..|inbox| - 1]), inbox[|inbox| - 1])
  }

  ghost predicate Replicated(st: State) {
    forall p :: p in st.ports ==> Replay(st.ports[p]) == st.buffer
  }

  lemma ReplayOneMore(inbox: seq<WorkerMessage>, m: WorkerMessage)
    ensures Replay(inbox + [m]) == ReplayStep(Replay(inbox), m)
  {
    assert (inbox + [m])[..|inbox|] == inbox;
  }

  lemma DeliverReplicates(st: State, log: seq<Notification>, n: Notification)
    requires Replicated(st) && BufferOf(st, log)
    ensures Replicated(Deliver(st, n))
  {
    if n.id !in st.bufferIds {
      PushKeepsBuffer(st, log, n);
    }
    forall p | p in Deliver(st, n).ports
      ensures Replay(Deliver(st, n).ports[p]) == Deliver(st, n).buffer
    {
      var inbox := st.ports[p];
      if n.id !in st.bufferIds {
        ReplayOneMore(inbox, Unread(st.unread + 1));
        ReplayOneMore(inbox + [Unread(st.unread + 1)], Notify(n));
      } else {
        ReplayOneMore(inbox, Notify(n));
      }
    }
  }

  lemma QuietBroadcastReplicates(st: State, m: WorkerMessage)
    requires Replicated(st) && (m.Unread? || m.StreamFailed?)
    ensures Replicated(Broadcast(st, m))
  {
    forall p | p in st.ports
      ensures Replay(Broadcast(st, m).ports[p]) == st.buffer
    {
      ReplayOneMore(st.ports[p], m);
    }
  }

  lemma PostReplicates(st: State, port: Port, m: WorkerMessage)
    requires forall p :: p in st.ports && p != port ==> Replay(st.ports[p]) == st.buffer
    requires m == Backfill(st.buffer) || (m.Unread? && Replicated(st))
    ensures Replicated(PostTo(st, port, m))
  {
    if port in st.ports {
      ReplayOneMore(st.ports[port], m);
    }
  }

  lemma RequestReplicates(st: State, port: Port, request: TabRequest)
    requires Replicated(st)
    ensures Replicated(HandleRequest(st, port, request))
  {
    match request
    case Connect(id, unread) =>
      var counted := st.(lastEventId := id, unread := unread);
      PostReplicates(counted, port, Unread(unread));
      PostReplicates(PostTo(counted, port, Unread(unread)), port, Backfill(st.buffer));
    case MarkRead(ids) =>
      var left := Max(st.unread - CountIn(ids, st.bufferIds), 0);
      QuietBroadcastReplicates(st.(unread := left), Unread(left));
    case MarkAllRead => QuietBroadcastReplicates(st.(unread := 0), Unread(0));
    case SetUnread(count) => QuietBroadcastReplicates(st.(unread := count), Unread(count));
    case Disconnect =>
  }

  lemma AttachReplicates(st: State, port: Port)
    requires Replicated(st)
    ensures Replicated(Attach(st, port))
  {
    var added := if port in st.ports then st else st.(ports := st.ports[port := []]);
    PostReplicates(added, port, Backfill(st.buffer));
    PostReplicates(PostTo(added, port, Backfill(st.buffer)), port, Unread(st.unread));
  }

  lemma StepReplicates(env: Env, st: State, log: seq<Notification>, event: Event)
    requires Replicated(st) && BufferOf(st, log)
    ensures Replicated(Step(env, st, event))
  {
    match event
    case TabAttached(port) => AttachReplicates(st, port);
    case TabRequested(port, request) => RequestReplicates(st, port, request);
    case FrameArrived(frame) =>
      if OfferedBy(env, event) != [] {
        DeliverReplicates(Resume(env, st, ReadFrame(frame).value.id), log, OfferedBy(env, event)[0]);
      } else {
        QuietBroadcastReplicates(st, StreamFailed);
      }
  }

  /** Backfill and live notifications together keep every tab's copy of the buffer exact. */
  lemma {:induction false} TabsAreReplicas(env: Env, events: seq<Event>)
    ensures Replicated(Run(env, events))
  {
    if events != [] {
      var earlier, event := events[..|events| - 1], events[|events| - 1];
      TabsAreReplicas(env, earlier);
      BufferRefinesLog(env, earlier);
      StepReplicates(env, Run(env, earlier), Dedup(Offered(env, earlier)), event);
    }
  }

  /** The unread count a tab was last told. */
  function ToldUnread(inbox: seq<WorkerMessage>): Option<int> {
    if inbox == [] then None
    else if inbox[|inbox| - 1].Unread? then Some(inbox[|inbox| - 1].count)
    else ToldUnread(inbox[..|inbox| - 1])
  }

  ghost predicate BadgesAgree(st: State) {
    forall p :: p in st.ports ==> ToldUnread(st.ports[p]) == Some(st.unread)
  }

  /** A tab that connects with a count of its own, while another tab is open. */
  ghost predicate SilentOverwrite(st: State, event: Event) {
    && event.TabRequested? && event.request.Connect? && event.request.unread != st.unread
    && exists q :: q in st.ports && q != event.port
  }

  lemma ToldOneMore(inbox: seq<WorkerMessage>, m: WorkerMessage)
    ensures ToldUnread(inbox + [m]) == if m.Unread? then Some(m.count) else ToldUnread(inbox)
  {
    assert (inbox + [m])[..|inbox|] == inbox;
  }

  lemma BroadcastTold(st: State, m: WorkerMessage)
    ensures forall p :: p in st.ports ==>
              && p in Broadcast(st, m).ports
              && ToldUnread(Broadcast(st, m).ports[p]) == if m.Unread? then Some(m.count) else ToldUnread(st.ports[p])
  {
    forall p | p in st.ports
      ensures ToldUnread(Broadcast(st, m).ports[p]) == if m.Unread? then Some(m.count) else ToldUnread(st.ports[p])
    {
      ToldOneMore(st.ports[p], m);
    }
  }

  lemma AttachTold(st: State, port: Port)
    requires BadgesAgree(st)
    ensures BadgesAgree(Attach(st, port))
  {
    var added := if port in st.ports then st else st.(ports := st.ports[port := []]);
    ToldOneMore(PostTo(added, port, Backfill(st.buffer)).ports[port], Unread(st.unread));
  }

  lemma ConnectTold(st: State, port: Port, id: Option<int>, unread: int, event: Event)
    requires BadgesAgree(st) && event == TabRequested(port, Connect(id, unread))
    ensures BadgesAgree(HandleRequest(st, port, event.request)) <==> !SilentOverwrite(st, event)
  {
    var after := HandleRequest(st, port, event.request);
    if port in st.ports {
      ToldOneMore(st.ports[port], Unread(unread));
      ToldOneMore(st.ports[port] + [Unread(unread)], Backfill(st.buffer));
    }
    forall q | q in st.ports && q != port
      ensures ToldUnread(after.ports[q]) == Some(st.unread)
    {
    }
    if SilentOverwrite(st, event) {
      var q :| q in st.ports && q != port;
      assert q in after.ports;
    }
  }

  lemma RequestTold(st: State, port: Port, request: TabRequest, event: Event)
    requires BadgesAgree(st) && event == TabRequested(port, request)
    ensures BadgesAgree(HandleRequest(st, port, request)) <==> !SilentOverwrite(st, event)
  {
    match request
    case Connect(id, unread) => ConnectTold(st, port, id, unread, event);
    case MarkRead(ids) =>
      var left := Max(st.unread - CountIn(ids, st.bufferIds), 0);
      BroadcastTold(st.(unread := left), Unread(left));
    case MarkAllRead => BroadcastTold(st.(unread := 0), Unread(0));
    case SetUnread(count) => BroadcastTold(st.(unread := count), Unread(count));
    case Disconnect =>
  }

  lemma {:induction false} EvictKeepsPorts(st: State)
    ensures Evict(st).ports == st.ports && Evict(st).unread == st.unread
    decreases |st.buffer|
  {
    if |st.buffer| > MAX_BUFFER {
      EvictKeepsPorts(st.(buffer := st.buffer[1..], bufferIds := st.bufferIds - {st.buffer[0].id}));
    }
  }

  lemma DeliverTold(st: State, n: Notification)
    requires BadgesAgree(st)
    ensures BadgesAgree(Deliver(st, n))
  {
    if n.id in st.bufferIds {
      BroadcastTold(st, Notify(n));
    } else {
      var counted := Push(st, n).(unread := st.unread + 1);
      EvictKeepsPorts(st.(buffer := st.buffer + [n], bufferIds := st.bufferIds + {n.id}));
      BroadcastTold(counted, Unread(st.unread + 1));
      BroadcastTold(Broadcast(counted, Unread(st.unread + 1)), Notify(n));
    }
  }

  /**
   * Every step keeps the unread badges of all tabs equal to the worker's counter, with exactly one
   * exception: CONNECT overwrites the counter but answers only the connecting tab.
   */
  lemma BadgesAgreeUnlessOverwritten(env: Env, st: State, event: Event)
    requires BadgesAgree(st)
    ensures BadgesAgree(Step(env, st, event)) <==> !SilentOverwrite(st, event)
  {
    match event
    case TabAttached(port) => AttachTold(st, port);
    case TabRequested(port, request) => RequestTold(st, port, request, event);
    case FrameArrived(frame) =>
      if OfferedBy(env, event) != [] {
        DeliverTold(Resume(env, st, ReadFrame(frame).value.id), OfferedBy(env, event)[0]);
      } else {
        BroadcastTold(st, StreamFailed);
      }
  }

  // ----- What a tab is told -----

  /** The live notifications among the messages of a tab. */
  function Notified(inbox: seq<WorkerMessage>): seq<Notification> {
    if inbox == [] then []
    else
      var earlier, m := Notified(inbox[..|inbox| - 1]), inbox[|inbox| - 1];
      if m.Notify? then earlier + [m.notification] else earlier
  }

  lemma NotifiedOneMore(inbox: seq<WorkerMessage>, m: WorkerMessage)
    ensures Notified(inbox + [m]) == (if m.Notify? then Notified(inbox) + [m.notification] else Notified(inbox))
  {
    assert (inbox + [m])[..|inbox|] == inbox;
  }

  lemma RequestNotifies(st: State, port: Port, request: TabRequest, p: Port)
    requires p in st.ports && !(port == p && request.Disconnect?)
    ensures p in HandleRequest(st, port, request).ports
    ensures Notified(HandleRequest(st, port, request).ports[p]) == Notified(st.ports[p])
  {
    match request
    case Connect(_, unread) =>
      NotifiedOneMore(st.ports[p], Unread(unread));
      NotifiedOneMore(st.ports[p] + [Unread(unread)], Backfill(st.buffer));
    case MarkRead(ids) => NotifiedOneMore(st.ports[p], Unread(Max(st.unread - CountIn(ids, st.bufferIds), 0)));
    case MarkAllRead => NotifiedOneMore(st.ports[p], Unread(0));
    case SetUnread(count) => NotifiedOneMore(st.ports[p], Unread(count));
    case Disconnect =>
  }

  lemma DeliverNotifies(st: State, n: Notification, p: Port)
    requires p in st.ports
    ensures p in Deliver(st, n).ports && Notified(Deliver(st, n).ports[p]) == Notified(st.ports[p]) + [n]
  {
    if n.id in st.bufferIds {
      NotifiedOneMore(st.ports[p], Notify(n));
    } else {
      EvictKeepsPorts(st.(buffer := st.buffer + [n], bufferIds := st.bufferIds + {n.id}));
      NotifiedOneMore(st.ports[p], Unread(st.unread + 1));
      NotifiedOneMore(st.ports[p] + [Unread(st.unread + 1)], Notify(n));
    }
  }

  /** What one event adds to the live notifications of an open tab that it does not close. */
  lemma StepNotifies(env: Env, st: State, event: Event, p: Port)
    requires p in st.ports && event != TabRequested(p, Disconnect)
    ensures p in Step(env, st, event).ports
    ensures Notified(Step(env, st, event).ports[p]) == Notified(st.ports[p]) + OfferedBy(env, event)
  {
    match event
    case TabAttached(port) =>
      if port == p {
        NotifiedOneMore(st.ports[p], Backfill(st.buffer));
        NotifiedOneMore(st.ports[p] + [Backfill(st.buffer)], Unread(st.unread));
      }
    case TabRequested(port, request) => RequestNotifies(st, port, request, p);
    case FrameArrived(frame) =>
      if OfferedBy(env, event) != [] {
        DeliverNotifies(Resume(env, st, ReadFrame(frame).value.id), OfferedBy(env, event)[0], p);
      } else {
        NotifiedOneMore(st.ports[p], StreamFailed);
      }
  }

  /** In `after` the open tab has been notified of `ns` since `before`. */
  ghost predicate HeardSince(before: State, after: State, p: Port, ns: seq<Notification>)
    requires p in before.ports
  {
    p in after.ports && Notified(after.ports[p]) == Notified(before.ports[p]) + ns
  }

  lemma HearsOneMore(env: Env, before: State, mid: State, event: Event, p: Port, ns: seq<Notification>)
    requires p in before.ports && HeardSince(before, mid, p, ns) && event != TabRequested(p, Disconnect)
    ensures HeardSince(before, Step(env, mid, event), p, ns + OfferedBy(env, event))
  {
    StepNotifies(env, mid, event, p);
  }

  lemma {:induction false} HearsFrom(env: Env, before: State, later: seq<Event>, p: Port)
    requires p in before.ports && forall e :: e in later ==> e != TabRequested(p, Disconnect)
    ensures HeardSince(before, RunFrom(env, before, later), p, Offered(env, later))
  {
    if later != [] {
      var shorter, event := later[..|later| - 1], later[|later| - 1];
      assert event in later && forall e :: e in shorter ==> e in later;
      HearsFrom(env, before, shorter, p);
      HearsOneMore(env, before, RunFrom(env, before, shorter), event, p, Offered(env, shorter));
    }
  }

  lemma {:induction false} RunInTwo(env: Env, st: State, earlier: seq<Event>, later: seq<Event>)
    ensures RunFrom(env, st, earlier + later) == RunFrom(env, RunFrom(env, st, earlier), later)
    decreases |later|
  {
    if later == [] {
      assert earlier + later == earlier;
    } else {
      assert (earlier + later)[..|earlier + later| - 1] == earlier + later[..|later| - 1];
      RunInTwo(env, st, earlier, later[..|later| - 1]);
    }
  }

  /**
   * While a tab stays open it is notified of every arrival, duplicates included, exactly once and in order,
   * whatever the other tabs do.
   */
  lemma TabHearsEverything(env: Env, earlier: seq<Event>, later: seq<Event>, p: Port)
    requires p in Run(env, earlier).ports
    requires forall e :: e in later ==> e != TabRequested(p, Disconnect)
    ensures HeardSince(Run(env, earlier), Run(env, earlier + later), p, Offered(env, later))
  {
    RunInTwo(env, START, earlier, later);
    HearsFrom(env, Run(env, earlier), later, p);
  }

  /** A frame whose data is a JSON `null` makes the read loop throw. */
  predicate Throws(env: Env, frame: string) {
    ReadFrame(frame).Some? && env.parseJson(ReadFrame(frame).value.data).NullValue?
  }

  /** What one event makes the worker send to an open tab that it does not close, in order. */
  function Told(env: Env, st: State, event: Event, p: Port): seq<WorkerMessage> {
    match event
    case TabAttached(q) => if q == p then [Backfill(st.buffer), Unread(st.unread)] else []
    case TabRequested(q, Connect(_, unread)) => if q == p then [Unread(unread), Backfill(st.buffer)] else []
    case TabRequested(_, Disconnect) => []
    case TabRequested(_, _) => [Unread(Step(env, st, event).unread)]
    case FrameArrived(frame) =>
      if Throws(env, frame) then [StreamFailed]
      else if OfferedBy(env, event) == [] then []
      else
        var n := OfferedBy(env, event)[0];
        (if n.id in st.bufferIds then [] else [Unread(st.unread + 1)]) + [Notify(n)]
  }

  lemma ThrowsExactly(env: Env, st: State, frame: string)
    ensures HandleFrame(env, st, frame).threw <==> Throws(env, frame)
    ensures Throws(env, frame) ==> HandleFrame(env, st, frame).state == st
  {
  }

  lemma DeliverTells(st: State, n: Notification, p: Port)
    requires p in st.ports
    ensures p in Deliver(st, n).ports
    ensures Deliver(st, n).ports[p]
         == st.ports[p] + (if n.id in st.bufferIds then [] else [Unread(st.unread + 1)]) + [Notify(n)]
  {
    if n.id !in st.bufferIds {
      EvictKeepsPorts(st.(buffer := st.buffer + [n], bufferIds := st.bufferIds + {n.id}));
    }
  }

  /** Every open tab is sent exactly that, after what it was sent before. */
  lemma TabIsTold(env: Env, st: State, event: Event, p: Port)
    requires p in st.ports && event != TabRequested(p, Disconnect)
    ensures p in Step(env, st, event).ports
    ensures Step(env, st, event).ports[p] == st.ports[p] + Told(env, st, event, p)
  {
    if event.FrameArrived? && OfferedBy(env, event) != [] {
      DeliverTells(Resume(env, st, ReadFrame(event.frame).value.id), OfferedBy(env, event)[0], p);
    }
  }

  /** A tab that attaches is open from then on, one that disconnects is not, and its requests are still answered. */
  lemma OpenTabs(env: Env, st: State, p: Port, unread: int, id: Option<int>)
    ensures Step(env, st, TabAttached(p)).ports.Keys == st.ports.Keys + {p}
    ensures Step(env, st, TabRequested(p, Disconnect)).ports == st.ports - {p}
    ensures p !in st.ports ==>
              var after := Step(env, st, TabRequested(p, Connect(id, unread)));
              && after.ports == st.ports && p in after.parted
              && after.parted[p] == (if p in st.parted then st.parted[p] else [])
                                    + [Unread(unread), Backfill(st.buffer)]
  {
  }
}
