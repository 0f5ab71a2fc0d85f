/**
 * The claimable calculator: a hook on the main thread and a Web Worker that exchange messages
 * through two FIFO queues. The worker caches the schedule set, so that a cursor request carries a
 * number only; request ids guard against stale answers; without a worker the same function runs
 * on the main thread. `compute` stands for `computeClaimableForCursor`, `S` for the schedule set
 * and `R` for its list of results.
 */
module ClaimableWorker {
  import opened Wrappers

  datatype Request<S> = Request(cursor: int, schedules: Option<S>, requestId: nat)

  datatype Response<R> = Response(cursor: int, requestId: nat, results: R)

  /** One call of `onResults`; `id` is absent when the main thread computed by itself. */
  datatype Applied<R> = Applied(results: R, cursor: int, id: Option<nat>)

  // ----- The worker -----

  function Answer<S, R>(compute: (S, int) -> R, cached: S, request: Request<S>): (S, Response<R>) {
    var schedules := if request.schedules.Some? then request.schedules.value else cached;
    (schedules, Response(request.cursor, request.requestId, compute(schedules, request.cursor)))
  }

  class Calculator<S, R> {
    const compute: (S, int) -> R
    var cachedSchedules: S

    constructor (compute: (S, int) -> R, none: S)
      ensures this.compute == compute && cachedSchedules == none
    {
      this.compute, this.cachedSchedules := compute, none;
    }

    method OnMessage(request: Request<S>) returns (response: Response<R>)
      modifies this
      ensures (cachedSchedules, response) == Answer(compute, old(cachedSchedules), request)
    {
      if request.schedules.Some? {
        cachedSchedules := request.schedules.value;
      }
      response := Response(request.cursor, request.requestId, compute(cachedSchedules, request.cursor));
    }
  }

  // ----- The hook -----

  /**
   * The refs of the hook. `schedules` is what the last commit rendered; `pushDue` says that the
   * passive effects of that commit have not run yet; `booted` that the mount effect has run.
   */
  datatype HookState<S, R> = HookState(
    schedules: S,
    pushDue: bool,
    booted: bool,
    workerUp: bool,
    lastCursor: Option<int>,
    requestId: nat,
    latestApplied: int,
    applied: seq<Applied<R>>)

  /** The mount effect, if due, and then the effect that posts a changed schedule set. */
  function RunEffects<S, R>(hook: HookState<S, R>, canSpawn: bool, clock: int): (HookState<S, R>, Option<Request<S>>) {
    if !hook.pushDue then (hook, None)
    else
      var up := if hook.booted then hook.workerUp else canSpawn;
      var idle := hook.(pushDue := false, booted := true, workerUp := up);
      if !up then (idle, None)
      else
        var cursor := if hook.lastCursor.Some? then hook.lastCursor.value else clock;
        (idle.(requestId := hook.requestId + 1), Some(Request(cursor, Some(hook.schedules), hook.requestId + 1)))
  }

  function AskCursor<S, R>(compute: (S, int) -> R, hook: HookState<S, R>, ledger: int)
    : (HookState<S, R>, Option<Request<S>>)
  {
    var asked := hook.(lastCursor := Some(ledger));
    if hook.workerUp then
      (asked.(requestId := hook.requestId + 1), Some(Request(ledger, None, hook.requestId + 1)))
    else
      (asked.(applied := hook.applied + [Applied(compute(hook.schedules, ledger), ledger, None)]), None)
  }

  function Receive<S, R>(hook: HookState<S, R>, response: Response<R>): HookState<S, R> {
    if response.requestId < hook.latestApplied then hook
    else hook.(latestApplied := response.requestId,
               applied := hook.applied + [Applied(response.results, response.cursor, Some(response.requestId))])
  }

  function Fail<S, R>(compute: (S, int) -> R, hook: HookState<S, R>): HookState<S, R> {
    var down := hook.(workerUp := false);
    if hook.lastCursor.None? then down
    else
      var cursor := hook.lastCursor.value;
      down.(applied := hook.applied + [Applied(compute(hook.schedules, cursor), cursor, None)])
  }

  function Mounted<S, R>(schedules: S): HookState<S, R> {
    HookState(schedules, true, false, false, None, 0, -1, [])
  }

  class Hook<S, R> {
    const compute: (S, int) -> R
    const canSpawn: bool
    var schedules: S
    var pushDue: bool
    var booted: bool
    var workerUp: bool
    var lastCursor: Option<int>
    var requestId: nat
    var latestApplied: int
    ghost var applied: seq<Applied<R>>

    ghost function Abs(): HookState<S, R>
      reads this
    {
      HookState(schedules, pushDue, booted, workerUp, lastCursor, requestId, latestApplied, applied)
    }

    constructor (compute: (S, int) -> R, canSpawn: bool, schedules: S)
      ensures this.compute == compute && this.canSpawn == canSpawn && Abs() == Mounted(schedules)
    {
      this.compute, this.canSpawn, this.schedules := compute, canSpawn, schedules;
      pushDue, booted, workerUp, lastCursor := true, false, false, None;
      requestId, latestApplied, applied := 0, -1, [];
    }

    /** A render with a new schedule set: React first runs the effects that are still due. */
    method Commit(schedules: S, clock: int) returns (posted: Option<Request<S>>)
      modifies this
      ensures var (before, request) := RunEffects(old(Abs()), canSpawn, clock);
              Abs() == before.(schedules := schedules, pushDue := true) && posted == request
    {
      posted := Effects(clock);
      this.schedules := schedules;
      pushDue := true;
    }

    method Effects(clock: int) returns (posted: Option<Request<S>>)
      modifies this
      ensures (Abs(), posted) == RunEffects(old(Abs()), canSpawn, clock)
    {
      if !pushDue {
        return None;
      }
      pushDue := false;
      if !booted {
        booted := true;
        workerUp := canSpawn;
      }
      if !workerUp {
        return None;
      }
      requestId := requestId + 1;
      var cursor := if lastCursor.Some? then lastCursor.value else clock;
      posted := Some(Request(cursor, Some(schedules), requestId));
    }

    method RequestCursor(ledger: int) returns (posted: Option<Request<S>>)
      modifies this
      ensures (Abs(), posted) == AskCursor(compute, old(Abs()), ledger)
    {
      lastCursor := Some(ledger);
      if workerUp {
        requestId := requestId + 1;
        return Some(Request(ledger, None, requestId));
      }
      ghost var results := compute(schedules, ledger);
      applied := applied + [Applied(results, ledger, None)];
      posted := None;
    }

    method OnMessage(response: Response<R>)
      modifies this
      ensures Abs() == Receive(old(Abs()), response)
    {
      if response.requestId < latestApplied {
        return;
      }
      latestApplied := response.requestId;
      applied := applied + [Applied(response.results, response.cursor, Some(response.requestId))];
    }

    method OnError()
      modifies this
      ensures Abs() == Fail(compute, old(Abs()))
    {
      workerUp := false;
      if lastCursor.Some? {
        ghost var cursor := lastCursor.value;
        applied := applied + [Applied(compute(schedules, cursor), cursor, None)];
      }
    }
  }

  // ----- Both together -----

  /**
   * One posted request: the schedule set rendered when it was sent, whether that set was still to be
   * pushed, the set pushed last, with which the worker will answer, and the cursor.
   */
  datatype Sent<S> = Sent(rendered: S, pushDue: bool, pushed: S, cursor: int)

  /** `sent` is a history variable: the inputs of request k stand at index k - 1. */
  datatype State<S, R> = State(
    hook: HookState<S, R>,
    cached: S,
    toWorker: seq<Request<S>>,
    toMain: seq<Response<R>>,
    sent: seq<Sent<S>>)

  datatype Event<S> =
    | Commit(schedules: S, clock: int)
    | Effects(clock: int)
    | CursorMoved(ledger: int)
    | WorkerStep
    | Deliver
    | WorkerFailed
    | Unmounted

  /** The two constants of a session, and the empty set with which the worker module starts. */
  datatype Setup<!S, !R> = Setup(compute: (S, int) -> R, canSpawn: bool, none: S)

  function Start<S, R>(setup: Setup<S, R>, schedules: S): State<S, R> {
    State(Mounted(schedules), setup.none, [], [], [])
  }

  function Post<S, R>(st: State<S, R>, hook: HookState<S, R>, request: Option<Request<S>>): State<S, R> {
    if request.None? then st.(hook := hook)
    else
      var pushed :=
        if request.value.schedules.Some? then request.value.schedules.value
        else if st.sent != [] then st.sent[|st.sent| - 1].pushed
        else st.cached;
      st.(hook := hook, toWorker := st.toWorker + [request.value],
          sent := st.sent + [Sent(hook.schedules, hook.pushDue, pushed, request.value.cursor)])
  }

  function Flush<S, R>(setup: Setup<S, R>, st: State<S, R>, clock: int): State<S, R> {
    var (hook, request) := RunEffects(st.hook, setup.canSpawn, clock);
    Post(st, hook, request)
  }

  function Render<S, R>(st: State<S, R>, schedules: S): State<S, R> {
    st.(hook := st.hook.(schedules := schedules, pushDue := true))
  }

  /** An event that cannot happen in `st` leaves it as it is. */
  function Step<S, R>(setup: Setup<S, R>, st: State<S, R>, event: Event<S>): State<S, R> {
    match event
    case Commit(schedules, clock) => Render(Flush(setup, st, clock), schedules)
    case Effects(clock) => Flush(setup, st, clock)
    case CursorMoved(ledger) =>
      var (hook, request) := AskCursor(setup.compute, st.hook, ledger);
      Post(st, hook, request)
    case WorkerStep =>
      if st.toWorker == [] then st
      else
        var (cached, response) := Answer(setup.compute, st.cached, st.toWorker[0]);
        st.(cached := cached, toWorker := st.toWorker[1..], toMain := st.toMain + [response])
    case Deliver =>
      if st.toMain == [] then st
      else st.(hook := Receive(st.hook, st.toMain[0]), toMain := st.toMain[1..])
    case WorkerFailed =>
      if !st.hook.workerUp then st
      else st.(hook := Fail(setup.compute, st.hook), toWorker := [], toMain := [])
    case Unmounted =>
      st.(hook := st.hook.(workerUp := false, booted := true, pushDue := false), toWorker := [], toMain := [])
  }

  function Run<S, R>(setup: Setup<S, R>, schedules: S, events: seq<Event<S>>): State<S, R> {
    if events == [] then Start(setup, schedules)
    else Step(setup, Run(setup, schedules, events[..|events| - 1]), events[|events| - 1])
  }

  // ----- The invariant -----

  /** How many requests the worker has answered, and how many of the answers were delivered. */
  function Answered<S, R>(st: State<S, R>): int {
    |st.sent| - |st.toWorker|
  }

  function Delivered<S, R>(st: State<S, R>): int {
    |st.sent| - |st.toWorker| - |st.toMain|
  }

  /** The response to request `id`, computed directly from the set pushed last and the cursor. */
  function Direct<S, R>(setup: Setup<S, R>, sent: seq<Sent<S>>, id: nat): Response<R>
    requires 1 <= id <= |sent|
  {
    var inputs := sent[id - 1];
    Response(inputs.cursor, id, setup.compute(inputs.pushed, inputs.cursor))
  }

  /** A request in flight says what the history says; one without schedules repeats the set before. */
  ghost predicate Faithful<S, R>(sent: seq<Sent<S>>, id: nat, request: Request<S>)
    requires 1 <= id <= |sent|
  {
    && request.requestId == id
    && request.cursor == sent[id - 1].cursor
    && (if request.schedules.Some? then request.schedules.value == sent[id - 1].pushed
        else id > 1 && sent[id - 1].pushed == sent[id - 2].pushed)
  }

  ghost predicate QueuesInOrder<S, R>(setup: Setup<S, R>, st: State<S, R>) {
    && Delivered(st) >= 0
    && (forall i :: 0 <= i < |st.toWorker| ==> Faithful<S, R>(st.sent, Answered(st) + i + 1, st.toWorker[i]))
    && (forall i :: 0 <= i < |st.toMain| ==> st.toMain[i] == Direct(setup, st.sent, Delivered(st) + i + 1))
    && (Answered(st) > 0 ==> st.cached == st.sent[Answered(st) - 1].pushed)
  }

  ghost predicate Shown<R>(hook_applied: seq<Applied<R>>, response: Response<R>) {
    && hook_applied != []
    && hook_applied[|hook_applied| - 1] == Applied(response.results, response.cursor, Some(response.requestId))
  }

  /** What holds while the worker is up. */
  ghost predicate Live<S, R>(setup: Setup<S, R>, st: State<S, R>) {
    var hook, last := st.hook, |st.sent| - 1;
    && hook.booted && st.sent != [] && QueuesInOrder(setup, st)
    && hook.latestApplied == (if Delivered(st) == 0 then -1 else Delivered(st))
    && (Delivered(st) > 0 ==> Shown(hook.applied, Direct(setup, st.sent, Delivered(st))))
    && (!hook.pushDue ==> st.sent[last].pushed == hook.schedules)
    && (hook.lastCursor.Some? ==> st.sent[last].cursor == hook.lastCursor.value)
  }

  /** The request ids handed to `onResults`, in order. */
  function AppliedIds<R>(applied: seq<Applied<R>>): seq<nat> {
    if applied == [] then []
    else
      var earlier, last := AppliedIds(applied[..|applied| - 1]), applied[|applied| - 1];
      if last.id.Some? then earlier + [last.id.value] else earlier
  }

  /** [1, 2, ..., n] */
  function UpTo(n: int): seq<nat>
    decreases if n > 0 then n else 0
  {
    if n <= 0 then [] else UpTo(n - 1) + [n]
  }

  /** Every answer that carries a request id is the direct computation on that request's inputs. */
  ghost predicate AnswersAreDirect<S, R>(setup: Setup<S, R>, st: State<S, R>) {
    forall a :: a in st.hook.applied && a.id.Some? ==>
      && 1 <= a.id.value <= |st.sent|
      && Response(a.cursor, a.id.value, a.results) == Direct(setup, st.sent, a.id.value)
  }

  /** A request that went out while no push was due carries or repeats the rendered set. */
  ghost predicate PushedIsRendered<S>(sent: seq<Sent<S>>) {
    forall i :: 0 <= i < |sent| && !sent[i].pushDue ==> sent[i].pushed == sent[i].rendered
  }

  ghost predicate Invariant<S, R>(setup: Setup<S, R>, st: State<S, R>) {
    var hook := st.hook;
    && hook.requestId == |st.sent|
    && hook.latestApplied <= |st.sent|
    && AppliedIds(hook.applied) == UpTo(hook.latestApplied)
    && AnswersAreDirect(setup, st)
    && PushedIsRendered(st.sent)
    && (!hook.booted ==> !hook.workerUp && st.sent == [] && hook.pushDue && hook.latestApplied == -1)
    && (if hook.workerUp then Live(setup, st) else st.toWorker == [] && st.toMain == [])
  }

  // ----- Every step keeps it -----

  lemma AppliedOneMore<R>(applied: seq<Applied<R>>, a: Applied<R>)
    ensures AppliedIds(applied + [a])
         == (if a.id.Some? then AppliedIds(applied) + [a.id.value] else AppliedIds(applied))
  {
    assert (applied + [a])[..|applied|] == applied;
  }

  /** Adding a request at the end of history and queue keeps everything before it in place. */
  lemma PostKeepsQueues<S, R>(setup: Setup<S, R>, st: State<S, R>, hook: HookState<S, R>, request: Request<S>)
    requires QueuesInOrder(setup, st) && request.requestId == |st.sent| + 1
    requires request.schedules.None? ==> st.sent != []
    ensures QueuesInOrder(setup, Post(st, hook, Some(request)))
    ensures AnswersAreDirect(setup, st) && hook.applied == st.hook.applied ==>
              AnswersAreDirect(setup, Post(st, hook, Some(request)))
    ensures Delivered(Post(st, hook, Some(request))) == Delivered(st)
  {
  }

  /** The first post of a session finds both queues empty. */
  lemma FirstPost<S, R>(setup: Setup<S, R>, st: State<S, R>)
    requires st.sent == [] && st.toWorker == [] && st.toMain == []
    ensures QueuesInOrder(setup, st)
  {
  }

  lemma EffectsKeep<S, R>(setup: Setup<S, R>, st: State<S, R>, clock: int)
    requires Invariant(setup, st)
    ensures Invariant(setup, Flush(setup, st, clock))
    ensures !Flush(setup, st, clock).hook.pushDue && Flush(setup, st, clock).hook.booted
  {
    var (hook, request) := RunEffects(st.hook, setup.canSpawn, clock);
    if request.Some? {
      if !st.hook.booted {
        FirstPost(setup, st);
      }
      PostKeepsQueues(setup, st, hook, request.value);
    }
  }

  lemma RenderKeeps<S, R>(setup: Setup<S, R>, st: State<S, R>, schedules: S)
    requires Invariant(setup, st) && st.hook.booted
    ensures Invariant(setup, Render(st, schedules))
  {
    var after := Render(st, schedules);
    if st.hook.workerUp {
      assert Live(setup, after);
    }
  }

  lemma CursorKeeps<S, R>(setup: Setup<S, R>, st: State<S, R>, ledger: int)
    requires Invariant(setup, st)
    ensures Invariant(setup, Step(setup, st, CursorMoved(ledger)))
  {
    var (hook, request) := AskCursor(setup.compute, st.hook, ledger);
    if request.Some? {
      PostKeepsQueues(setup, st, hook, request.value);
    } else {
      AppliedOneMore(st.hook.applied, Applied(setup.compute(st.hook.schedules, ledger), ledger, None));
    }
  }

  lemma WorkerKeepsQueues<S, R>(setup: Setup<S, R>, st: State<S, R>)
    requires QueuesInOrder(setup, st) && st.toWorker != []
    ensures QueuesInOrder(setup, Step(setup, st, WorkerStep))
    ensures Delivered(Step(setup, st, WorkerStep)) == Delivered(st)
  {
    var after := Step(setup, st, WorkerStep);
    assert Faithful<S, R>(st.sent, Answered(st) + 0 + 1, st.toWorker[0]);
    forall i | 0 <= i < |after.toWorker|
      ensures Faithful<S, R>(after.sent, Answered(after) + i + 1, after.toWorker[i])
    {
      assert Faithful<S, R>(st.sent, Answered(st) + (i + 1) + 1, st.toWorker[i + 1]);
    }
    forall i | 0 <= i < |after.toMain|
      ensures after.toMain[i] == Direct(setup, after.sent, Delivered(after) + i + 1)
    {
      if i < |st.toMain| {
        assert st.toMain[i] == Direct(setup, st.sent, Delivered(st) + i + 1);
      }
    }
  }

  lemma WorkerKeeps<S, R>(setup: Setup<S, R>, st: State<S, R>)
    requires Invariant(setup, st)
    ensures Invariant(setup, Step(setup, st, WorkerStep))
  {
    if st.toWorker != [] {
      WorkerKeepsQueues(setup, st);
    }
  }

  lemma DeliverKeepsQueues<S, R>(setup: Setup<S, R>, st: State<S, R>)
    requires QueuesInOrder(setup, st) && st.toMain != []
    ensures var after := Step(setup, st, Deliver);
            && QueuesInOrder(setup, after)
            && Delivered(after) == Delivered(st) + 1
            && st.toMain[0] == Direct(setup, st.sent, Delivered(st) + 1)
  {
    var after := Step(setup, st, Deliver);
    assert st.toMain[0] == Direct(setup, st.sent, Delivered(st) + 0 + 1);
    forall i | 0 <= i < |after.toMain|
      ensures after.toMain[i] == Direct(setup, after.sent, Delivered(after) + i + 1)
    {
      assert st.toMain[i + 1] == Direct(setup, st.sent, Delivered(st) + (i + 1) + 1);
    }
  }

  lemma DirectOneMore<S, R>(setup: Setup<S, R>, st: State<S, R>, after: State<S, R>, response: Response<R>)
    requires AnswersAreDirect(setup, st) && after.sent == st.sent
    requires 1 <= response.requestId <= |st.sent| && response == Direct(setup, st.sent, response.requestId)
    requires after.hook.applied
          == st.hook.applied + [Applied(response.results, response.cursor, Some(response.requestId))]
    ensures AnswersAreDirect(setup, after)
  {
    forall a | a in after.hook.applied && a.id.Some?
      ensures 1 <= a.id.value <= |after.sent|
      ensures Response(a.cursor, a.id.value, a.results) == Direct(setup, after.sent, a.id.value)
    {
      assert a in st.hook.applied || a == Applied(response.results, response.cursor, Some(response.requestId));
    }
  }

  /** The next response is applied, and it is the direct one. */
  lemma DeliverApplies<S, R>(setup: Setup<S, R>, st: State<S, R>, after: State<S, R>, response: Response<R>)
    requires st.toMain != [] && st.toMain[0] == response && after == Step(setup, st, Deliver)
    requires st.hook.latestApplied <= response.requestId && response.requestId >= 1
    requires AppliedIds(st.hook.applied) == UpTo(response.requestId - 1)
    ensures after.hook == Receive(st.hook, response) && after.hook.latestApplied == response.requestId
    ensures after.hook.applied
         == st.hook.applied + [Applied(response.results, response.cursor, Some(response.requestId))]
    ensures AppliedIds(after.hook.applied) == UpTo(response.requestId)
  {
    AppliedOneMore(st.hook.applied, Applied(response.results, response.cursor, Some(response.requestId)));
  }

  lemma DeliverKeeps<S, R>(setup: Setup<S, R>, st: State<S, R>)
    requires Invariant(setup, st)
    ensures Invariant(setup, Step(setup, st, Deliver))
  {
    if st.toMain != [] {
      var after, response := Step(setup, st, Deliver), st.toMain[0];
      DeliverKeepsQueues(setup, st);
      DeliverApplies(setup, st, after, response);
      DirectOneMore(setup, st, after, response);
    }
  }

  lemma FailureKeeps<S, R>(setup: Setup<S, R>, st: State<S, R>)
    requires Invariant(setup, st)
    ensures Invariant(setup, Step(setup, st, WorkerFailed))
  {
    if st.hook.workerUp && st.hook.lastCursor.Some? {
      var cursor := st.hook.lastCursor.value;
      AppliedOneMore(st.hook.applied, Applied(setup.compute(st.hook.schedules, cursor), cursor, None));
    }
  }

  lemma StepKeeps<S, R>(setup: Setup<S, R>, st: State<S, R>, event: Event<S>)
    requires Invariant(setup, st)
    ensures Invariant(setup, Step(setup, st, event))
  {
    match event
    case Commit(schedules, clock) =>
      EffectsKeep(setup, st, clock);
      RenderKeeps(setup, Flush(setup, st, clock), schedules);
    case Effects(clock) => EffectsKeep(setup, st, clock);
    case CursorMoved(ledger) => CursorKeeps(setup, st, ledger);
    case WorkerStep => WorkerKeeps(setup, st);
    case Deliver => DeliverKeeps(setup, st);
    case WorkerFailed => FailureKeeps(setup, st);
    case Unmounted =>
  }

  lemma {:induction false} Reachable<S, R>(setup: Setup<S, R>, schedules: S, events: seq<Event<S>>)
    ensures Invariant(setup, Run(setup, schedules, events))
  {
    if events != [] {
      Reachable(setup, schedules, events[..|events| - 1]);
      StepKeeps(setup, Run(setup, schedules, events[..|events| - 1]), events[|events| - 1]);
    }
  }

  // ----- What it gives -----

  /**
   * In every interleaving the worker's answers are applied in the order of the requests, one each,
   * without a gap. Each is the direct computation, at the request's cursor, on the set pushed last,
   * and the set pushed last is the rendered one unless a push was due.
   */
  lemma AppliedInOrder<S, R>(setup: Setup<S, R>, schedules: S, events: seq<Event<S>>)
    ensures var st := Run(setup, schedules, events);
            && AppliedIds(st.hook.applied) == UpTo(st.hook.latestApplied)
            && AnswersAreDirect(setup, st)
            && PushedIsRendered(st.sent)
  {
    Reachable(setup, schedules, events);
  }

  /** An applied answer is what the inputs current at the time of its request give. */
  ghost predicate AnswerIsCurrent<S, R>(setup: Setup<S, R>, st: State<S, R>, a: Applied<R>)
    requires a.id.Some? && 1 <= a.id.value <= |st.sent|
  {
    var inputs := st.sent[a.id.value - 1];
    a.cursor == inputs.cursor && a.results == setup.compute(inputs.rendered, inputs.cursor)
  }

  lemma DirectIsCurrent<S, R>(setup: Setup<S, R>, st: State<S, R>, a: Applied<R>)
    requires AnswersAreDirect(setup, st) && PushedIsRendered(st.sent)
    requires a in st.hook.applied && a.id.Some?
    ensures 1 <= a.id.value <= |st.sent|
    ensures var inputs := st.sent[a.id.value - 1];
            AnswerIsCurrent(setup, st, a) <==>
              || !inputs.pushDue
              || setup.compute(inputs.pushed, inputs.cursor) == setup.compute(inputs.rendered, inputs.cursor)
  {
    assert Response(a.cursor, a.id.value, a.results) == Direct(setup, st.sent, a.id.value);
  }

  /**
   * In every interleaving an applied answer is the direct computation on the schedules rendered and the
   * cursor asked for when its request was sent, exactly if no push was due then or the set pushed last
   * gives the same result at that cursor.
   */
  lemma AppliedIsCurrent<S, R>(setup: Setup<S, R>, schedules: S, events: seq<Event<S>>, st: State<S, R>, a: Applied<R>)
    requires st == Run(setup, schedules, events) && a in st.hook.applied && a.id.Some?
    ensures 1 <= a.id.value <= |st.sent|
    ensures var inputs := st.sent[a.id.value - 1];
            AnswerIsCurrent(setup, st, a) <==>
              || !inputs.pushDue
              || setup.compute(inputs.pushed, inputs.cursor) == setup.compute(inputs.rendered, inputs.cursor)
  {
    Reachable(setup, schedules, events);
    DirectIsCurrent(setup, st, a);
  }

  lemma WindowStep<S, R>(setup: Setup<S, R>, st: State<S, R>, clock: int, ledger: int, pushed: S)
    requires st.hook.workerUp && st.hook.pushDue && st.hook.booted
    requires st.sent != [] && st.sent[|st.sent| - 1].pushed == pushed
    ensures var window, next := Step(setup, st, CursorMoved(ledger)), st.hook.schedules;
            && window.sent == st.sent + [Sent(next, true, pushed, ledger)]
            && Step(setup, window, Effects(clock)).sent == window.sent + [Sent(next, false, next, ledger)]
  {
  }

  /**
   * The stale window, between a commit and its effects: in every such place of every run a cursor request
   * will be answered for the set before, and the effects then send the new set with the same cursor.
   */
  lemma StaleWindow<S, R>(setup: Setup<S, R>, schedules: S, events: seq<Event<S>>, st: State<S, R>,
                          next: S, clock: int, ledger: int)
    requires st == Run(setup, schedules, events) && st.hook.workerUp && !st.hook.pushDue
    ensures var window := Step(setup, Step(setup, st, Commit(next, clock)), CursorMoved(ledger));
            && window.sent == st.sent + [Sent(next, true, st.hook.schedules, ledger)]
            && Step(setup, window, Effects(clock)).sent == window.sent + [Sent(next, false, next, ledger)]
  {
    Reachable(setup, schedules, events);
    assert Step(setup, st, Commit(next, clock)) == Render(st, next);
    RenderKeeps(setup, st, next);
    WindowStep(setup, Render(st, next), clock, ledger, st.hook.schedules);
  }

  /** With FIFO queues the stale-response guard never has anything to drop. */
  lemma NothingIsStale<S, R>(setup: Setup<S, R>, schedules: S, events: seq<Event<S>>)
    ensures var st := Run(setup, schedules, events);
            st.toMain != [] ==>
              && st.toMain[0].requestId > st.hook.latestApplied
              && Shown(Step(setup, st, Deliver).hook.applied, st.toMain[0])
  {
    Reachable(setup, schedules, events);
    var st := Run(setup, schedules, events);
    if st.toMain != [] {
      assert st.toMain[0] == Direct(setup, st.sent, Delivered(st) + 1);
    }
  }

  /** The last thing shown is the computation on the current schedules at `cursor`. */
  ghost predicate ShowsCurrent<S, R>(setup: Setup<S, R>, st: State<S, R>, cursor: int) {
    var applied := st.hook.applied;
    && applied != []
    && applied[|applied| - 1].cursor == cursor
    && applied[|applied| - 1].results == setup.compute(st.hook.schedules, cursor)
  }

  /** What is shown is right for the last request, hence for the last cursor that was asked for. */
  ghost predicate Settled<S, R>(setup: Setup<S, R>, st: State<S, R>) {
    && st.sent != []
    && ShowsCurrent(setup, st, st.sent[|st.sent| - 1].cursor)
    && (st.hook.lastCursor.Some? ==> ShowsCurrent(setup, st, st.hook.lastCursor.value))
  }

  lemma LiveIsSettled<S, R>(setup: Setup<S, R>, st: State<S, R>)
    requires Live(setup, st) && !st.hook.pushDue && st.toWorker == [] && st.toMain == []
    ensures Settled(setup, st)
  {
  }

  /**
   * Once effects have run and both queues are empty, a running worker has the timeline showing the
   * latest schedules at the latest cursor, or at the clock value of the last push if no cursor was
   * ever requested.
   */
  lemma Quiescent<S, R>(setup: Setup<S, R>, schedules: S, events: seq<Event<S>>, st: State<S, R>)
    requires st == Run(setup, schedules, events)
    requires st.hook.workerUp && !st.hook.pushDue && st.toWorker == [] && st.toMain == []
    ensures Settled(setup, st)
  {
    Reachable(setup, schedules, events);
    LiveIsSettled(setup, st);
  }

  /** The worker answers everything that is queued, then everything is delivered. */
  function Drain<S>(requests: nat, responses: nat): seq<Event<S>> {
    if responses > 0 then Drain(requests, responses - 1) + [Deliver]
    else if requests > 0 then Drain(requests - 1, 0) + [WorkerStep]
    else []
  }

  lemma RunOneMore<S, R>(setup: Setup<S, R>, schedules: S, events: seq<Event<S>>, event: Event<S>)
    ensures Run(setup, schedules, events + [event]) == Step(setup, Run(setup, schedules, events), event)
  {
    assert (events + [event])[..|events|] == events;
  }

  /** Between `st` and `after` only so many requests were answered and responses delivered. */
  ghost predicate DrainedBy<S, R>(st: State<S, R>, after: State<S, R>, requests: nat, responses: nat) {
    && |after.toWorker| == |st.toWorker| - requests
    && |after.toMain| == |st.toMain| + requests - responses
    && after.sent == st.sent
    && after.hook == st.hook.(latestApplied := after.hook.latestApplied, applied := after.hook.applied)
  }

  lemma DrainNothing<S, R>(setup: Setup<S, R>, schedules: S, events: seq<Event<S>>, st: State<S, R>)
    requires st == Run(setup, schedules, events)
    ensures DrainedBy(st, Run(setup, schedules, events + Drain(0, 0)), 0, 0)
  {
    assert events + Drain<S>(0, 0) == events;
  }

  lemma DrainOneMore<S, R>(setup: Setup<S, R>, schedules: S, events: seq<Event<S>>, drain: seq<Event<S>>,
                           event: Event<S>)
    ensures Run(setup, schedules, events + (drain + [event]))
            == Step(setup, Run(setup, schedules, events + drain), event)
  {
    assert events + (drain + [event]) == (events + drain) + [event];
    RunOneMore(setup, schedules, events + drain, event);
  }

  lemma DeliverDrains<S, R>(setup: Setup<S, R>, schedules: S, events: seq<Event<S>>, st: State<S, R>, requests: nat,
                            responses: nat)
    requires 0 < responses <= requests + |st.toMain|
    requires DrainedBy(st, Run(setup, schedules, events + Drain(requests, responses - 1)), requests, responses - 1)
    ensures DrainedBy(st, Run(setup, schedules, events + Drain(requests, responses)), requests, responses)
  {
    DrainOneMore(setup, schedules, events, Drain<S>(requests, responses - 1), Deliver);
  }

  lemma WorkerDrains<S, R>(setup: Setup<S, R>, schedules: S, events: seq<Event<S>>, st: State<S, R>, requests: nat)
    requires 0 < requests <= |st.toWorker|
    requires DrainedBy(st, Run(setup, schedules, events + Drain(requests - 1, 0)), requests - 1, 0)
    ensures DrainedBy(st, Run(setup, schedules, events + Drain(requests, 0)), requests, 0)
  {
    DrainOneMore(setup, schedules, events, Drain<S>(requests - 1, 0), WorkerStep);
  }

  lemma {:induction false} DrainWorks<S, R>(setup: Setup<S, R>, schedules: S, events: seq<Event<S>>, st: State<S, R>,
                                            requests: nat, responses: nat)
    requires st == Run(setup, schedules, events)
    requires requests <= |st.toWorker| && responses <= requests + |st.toMain|
    ensures DrainedBy(st, Run(setup, schedules, events + Drain(requests, responses)), requests, responses)
    decreases requests, responses
  {
    if responses > 0 {
      DrainWorks(setup, schedules, events, st, requests, responses - 1);
      DeliverDrains(setup, schedules, events, st, requests, responses);
    } else if requests > 0 {
      DrainWorks(setup, schedules, events, st, requests - 1, 0);
      WorkerDrains(setup, schedules, events, st, requests);
    } else {
      DrainNothing(setup, schedules, events, st);
    }
  }

  /** Nothing but the display has changed since `st`, and it is settled. */
  ghost predicate SettledLike<S, R>(setup: Setup<S, R>, st: State<S, R>, after: State<S, R>) {
    && Settled(setup, after)
    && after.sent == st.sent
    && after.hook.schedules == st.hook.schedules
    && after.hook.lastCursor == st.hook.lastCursor
  }

  lemma DrainedIsQuiet<S, R>(st: State<S, R>, after: State<S, R>)
    requires DrainedBy(st, after, |st.toWorker|, |st.toWorker| + |st.toMain|)
    ensures after.toWorker == [] && after.toMain == [] && after.sent == st.sent
    ensures after.hook.workerUp == st.hook.workerUp && after.hook.pushDue == st.hook.pushDue
    ensures after.hook.schedules == st.hook.schedules && after.hook.lastCursor == st.hook.lastCursor
  {
  }

  /** From every reachable state with a running worker, finishing the pending work shows the current result. */
  lemma DrainSettles<S, R>(setup: Setup<S, R>, schedules: S, events: seq<Event<S>>, st: State<S, R>, after: State<S, R>)
    requires st == Run(setup, schedules, events) && st.hook.workerUp && !st.hook.pushDue
    requires after == Run(setup, schedules, events + Drain(|st.toWorker|, |st.toWorker| + |st.toMain|))
    ensures SettledLike(setup, st, after)
  {
    DrainWorks(setup, schedules, events, st, |st.toWorker|, |st.toWorker| + |st.toMain|);
    DrainedIsQuiet(st, after);
    Quiescent(setup, schedules, events + Drain(|st.toWorker|, |st.toWorker| + |st.toMain|), after);
  }

  // ----- What a push carries -----

  ghost predicate NoCursorRequest<S>(events: seq<Event<S>>) {
    forall e :: e in events ==> !e.CursorMoved?
  }

  lemma {:induction false} NoCursorYet<S, R>(setup: Setup<S, R>, schedules: S, events: seq<Event<S>>)
    requires NoCursorRequest(events)
    ensures Run(setup, schedules, events).hook.lastCursor == None
  {
    if events != [] {
      var earlier, last := events[..|events| - 1], events[|events| - 1];
      assert last in events && forall e :: e in earlier ==> e in events;
      NoCursorYet(setup, schedules, earlier);
    }
  }

  /**
   * The effects of every commit with a worker send the rendered set, with the last cursor asked for, or with the
   * reading of the clock if none ever was.
   */
  lemma PushSends<S, R>(setup: Setup<S, R>, schedules: S, events: seq<Event<S>>, st: State<S, R>, clock: int)
    requires st == Run(setup, schedules, events) && st.hook.pushDue
    requires if st.hook.booted then st.hook.workerUp else setup.canSpawn
    ensures var next := Sent(st.hook.schedules, false, st.hook.schedules,
                             if st.hook.lastCursor.Some? then st.hook.lastCursor.value else clock);
            && Flush(setup, st, clock).sent == st.sent + [next]
            && (NoCursorRequest(events) ==> next.cursor == clock)
  {
    if NoCursorRequest(events) {
      NoCursorYet(setup, schedules, events);
    }
  }

  // ----- The guard on its own -----

  /** Responses in whatever order they come. */
  function ReceiveAll<S, R>(hook: HookState<S, R>, responses: seq<Response<R>>): HookState<S, R> {
    if responses == [] then hook
    else Receive(ReceiveAll(hook, responses[..|responses| - 1]), responses[|responses| - 1])
  }

  /** The response at `k` has an id no lower than all before it. */
  predicate Fresh<R>(responses: seq<Response<R>>, latest: int, k: nat)
    requires k < |responses|
  {
    latest <= responses[k].requestId && forall i :: 0 <= i < k ==> responses[i].requestId <= responses[k].requestId
  }

  /** The responses that are fresh when they come. */
  function FreshOnes<R>(responses: seq<Response<R>>, latest: int): seq<Applied<R>> {
    if responses == [] then []
    else
      var last := |responses| - 1;
      FreshOnes(responses[..last], latest)
      + if Fresh(responses, latest, last) then
          [Applied(responses[last].results, responses[last].cursor, Some(responses[last].requestId))]
        else []
  }

  /**
   * Even where a channel does not keep the order, the guard applies exactly the responses that are no older than all
   * that came before them.
   */
  lemma {:induction false} GuardAppliesFresh<S, R>(hook: HookState<S, R>, responses: seq<Response<R>>)
    ensures var after := ReceiveAll(hook, responses);
            && after.applied == hook.applied + FreshOnes(responses, hook.latestApplied)
            && after.latestApplied >= hook.latestApplied
            && (forall i :: 0 <= i < |responses| ==> responses[i].requestId <= after.latestApplied)
            && (after.latestApplied == hook.latestApplied
                || exists i :: 0 <= i < |responses| && after.latestApplied == responses[i].requestId)
  {
    if responses != [] {
      var last := |responses| - 1;
      GuardAppliesFresh(hook, responses[..last]);
      assert forall i :: 0 <= i < last ==> responses[..last][i] == responses[i];
    } else {
      assert hook.applied + [] == hook.applied;
    }
  }

  // ----- Without a worker -----

  /** `st` has no worker any more, and in `after` there is still none and nothing else is shown. */
  ghost predicate StillDown<S, R>(st: State<S, R>, after: State<S, R>) {
    && after.hook.booted && !after.hook.workerUp && after.toWorker == [] && after.toMain == []
    && after.hook.applied == st.hook.applied && after.hook.lastCursor == st.hook.lastCursor
  }

  lemma DownStep<S, R>(setup: Setup<S, R>, st: State<S, R>, mid: State<S, R>, event: Event<S>)
    requires StillDown(st, mid) && !event.CursorMoved?
    ensures StillDown(st, Step(setup, mid, event))
  {
  }

  lemma DownOneMore<S, R>(setup: Setup<S, R>, schedules: S, events: seq<Event<S>>, st: State<S, R>,
                          earlier: seq<Event<S>>, last: Event<S>)
    requires StillDown(st, Run(setup, schedules, events + earlier)) && !last.CursorMoved?
    ensures StillDown(st, Run(setup, schedules, events + (earlier + [last])))
  {
    DrainOneMore(setup, schedules, events, earlier, last);
    DownStep(setup, st, Run(setup, schedules, events + earlier), last);
  }

  /** Once the worker is gone nothing but a cursor request calls `onResults`, and the worker stays gone. */
  lemma {:induction false} DownStaysAsItIs<S, R>(setup: Setup<S, R>, schedules: S, events: seq<Event<S>>,
                                                 st: State<S, R>, more: seq<Event<S>>)
    requires st == Run(setup, schedules, events) && StillDown(st, st) && NoCursorRequest(more)
    ensures StillDown(st, Run(setup, schedules, events + more))
    decreases |more|
  {
    if more == [] {
      assert events + more == events;
    } else {
      var earlier, last := more[..|more| - 1], more[|more| - 1];
      assert more == earlier + [last] && last in more && forall e :: e in earlier ==> e in more;
      DownStaysAsItIs(setup, schedules, events, st, earlier);
      DownOneMore(setup, schedules, events, st, earlier, last);
    }
  }

  /**
   * In every run a failing worker is replaced by exactly one direct computation if a cursor was requested
   * before, and by nothing otherwise; and whatever happens then, short of a cursor request, no answer of
   * the failed worker gets through any more.
   */
  lemma FailureHandsOver<S, R>(setup: Setup<S, R>, schedules: S, events: seq<Event<S>>, more: seq<Event<S>>,
                               st: State<S, R>)
    requires st == Run(setup, schedules, events) && st.hook.workerUp && NoCursorRequest(more)
    ensures Run(setup, schedules, events + [WorkerFailed] + more).hook.applied == st.hook.applied +
              match st.hook.lastCursor
              case None => []
              case Some(cursor) => [Applied(setup.compute(st.hook.schedules, cursor), cursor, None)]
  {
    Reachable(setup, schedules, events);
    RunOneMore(setup, schedules, events, WorkerFailed);
    DownStaysAsItIs(setup, schedules, events + [WorkerFailed], Step(setup, st, WorkerFailed), more);
  }

  /**
   * The hook on its own: without a worker no sequence of commits and effects triggers a computation, so
   * what was right for the old set is right for the rendered one exactly when both give the same result.
   */
  lemma FallbackNeverRefreshes<S, R>(setup: Setup<S, R>, schedules: S, events: seq<Event<S>>, more: seq<Event<S>>,
                                     st: State<S, R>, after: State<S, R>, cursor: int)
    requires st == Run(setup, schedules, events) && after == Run(setup, schedules, events + more)
    requires st.hook.booted && !st.hook.workerUp && ShowsCurrent(setup, st, cursor) && NoCursorRequest(more)
    ensures after.hook.applied == st.hook.applied
    ensures ShowsCurrent(setup, after, cursor) <==>
              setup.compute(after.hook.schedules, cursor) == setup.compute(st.hook.schedules, cursor)
  {
    Reachable(setup, schedules, events);
    DownStaysAsItIs(setup, schedules, events, st, more);
  }

  /** The hook on its own: with a client that requests no cursor, a worker that fails leaves nothing shown. */
  lemma FailureBeforeAnyCursor<S, R>(setup: Setup<S, R>, schedules: S, clock: int, more: seq<Event<S>>)
    requires setup.canSpawn && NoCursorRequest(more)
    ensures Run(setup, schedules, [Effects(clock), WorkerFailed] + more).hook.applied == []
  {
    var first: seq<Event<S>> := [Effects(clock)];
    assert [] + first == first && first + [WorkerFailed] == [Effects(clock), WorkerFailed];
    RunOneMore(setup, schedules, [], Effects(clock));
    FailureHandsOver(setup, schedules, first, more, Run(setup, schedules, first));
  }

  // ----- The hook with its client -----

  /**
   * What happens to a mounted timeline, the one client of the hook. Its own effect on the schedule set
   * requests the cursor target, right after the hook's effects and in the same flush.
   */
  datatype ClientEvent<S> =
    | Rerender(schedules: S, clock: int, target: int)
    | FlushEffects(clock: int, target: int)
    | Drag(ledger: int)
    | WorkerAnswers
    | AnswerArrives
    | WorkerBreaks

  function FlushEvents<S>(pushDue: bool, clock: int, target: int): seq<Event<S>> {
    if pushDue then [Effects(clock), CursorMoved(target)] else []
  }

  /** The events of the hook in one event of the client; effects still due come before a new render. */
  function Unfold<S>(pushDue: bool, event: ClientEvent<S>): seq<Event<S>> {
    match event
    case Rerender(schedules, clock, target) => FlushEvents(pushDue, clock, target) + [Commit(schedules, clock)]
    case FlushEffects(clock, target) => FlushEvents(pushDue, clock, target)
    case Drag(ledger) => [CursorMoved(ledger)]
    case WorkerAnswers => [WorkerStep]
    case AnswerArrives => [Deliver]
    case WorkerBreaks => [WorkerFailed]
  }

  function ClientEvents<S, R>(setup: Setup<S, R>, schedules: S, events: seq<ClientEvent<S>>): seq<Event<S>> {
    if events == [] then []
    else
      var earlier := ClientEvents(setup, schedules, events[..|events| - 1]);
      earlier + Unfold(Run(setup, schedules, earlier).hook.pushDue, events[|events| - 1])
  }

  function ClientRun<S, R>(setup: Setup<S, R>, schedules: S, events: seq<ClientEvent<S>>): State<S, R> {
    Run(setup, schedules, ClientEvents(setup, schedules, events))
  }

  /** With this client a cursor is set as soon as effects have run, and the main thread shows the current result. */
  ghost predicate ClientInvariant<S, R>(setup: Setup<S, R>, st: State<S, R>) {
    var hook := st.hook;
    && Invariant(setup, st)
    && (hook.booted ==> hook.lastCursor.Some?)
    && (!hook.pushDue ==> hook.booted)
    && (hook.booted && !hook.workerUp && !hook.pushDue ==> ShowsCurrent(setup, st, hook.lastCursor.value))
  }

  lemma SeededFlushKeeps<S, R>(setup: Setup<S, R>, st: State<S, R>, clock: int, target: int)
    requires Invariant(setup, st)
    ensures var after := Step(setup, Step(setup, st, Effects(clock)), CursorMoved(target));
            ClientInvariant(setup, after) && !after.hook.pushDue
  {
    EffectsKeep(setup, st, clock);
    CursorKeeps(setup, Flush(setup, st, clock), target);
  }

  lemma PlainEventKeeps<S, R>(setup: Setup<S, R>, st: State<S, R>, event: Event<S>)
    requires ClientInvariant(setup, st)
    requires match event
             case Commit(_, _) => !st.hook.pushDue
             case Effects(_) => false
             case Unmounted => false
             case _ => true
    ensures ClientInvariant(setup, Step(setup, st, event))
  {
    StepKeeps(setup, st, event);
  }

  lemma PlainStepKeeps<S, R>(setup: Setup<S, R>, schedules: S, earlier: seq<Event<S>>, event: Event<S>)
    requires ClientInvariant(setup, Run(setup, schedules, earlier))
    requires !event.Commit? && !event.Effects? && !event.Unmounted?
    ensures ClientInvariant(setup, Run(setup, schedules, earlier + [event]))
  {
    RunOneMore(setup, schedules, earlier, event);
    PlainEventKeeps(setup, Run(setup, schedules, earlier), event);
  }

  lemma FlushStepKeeps<S, R>(setup: Setup<S, R>, schedules: S, earlier: seq<Event<S>>, clock: int, target: int)
    requires ClientInvariant(setup, Run(setup, schedules, earlier))
    ensures var after := Run(setup, schedules, earlier
            + FlushEvents(Run(setup, schedules, earlier).hook.pushDue, clock, target));
            ClientInvariant(setup, after) && !after.hook.pushDue
  {
    var st := Run(setup, schedules, earlier);
    if st.hook.pushDue {
      var first: seq<Event<S>> := [Effects(clock)];
      assert FlushEvents<S>(true, clock, target) == first + [CursorMoved(target)];
      RunOneMore(setup, schedules, earlier, Effects(clock));
      DrainOneMore(setup, schedules, earlier, first, CursorMoved(target));
      SeededFlushKeeps(setup, st, clock, target);
    } else {
      assert earlier + FlushEvents<S>(false, clock, target) == earlier;
    }
  }

  lemma ClientStepKeeps<S, R>(setup: Setup<S, R>, schedules: S, earlier: seq<Event<S>>, event: ClientEvent<S>)
    requires ClientInvariant(setup, Run(setup, schedules, earlier))
    ensures ClientInvariant(setup, Run(setup, schedules, earlier
            + Unfold(Run(setup, schedules, earlier).hook.pushDue, event)))
  {
    var st := Run(setup, schedules, earlier);
    match event
    case Rerender(next, clock, target) =>
      FlushStepKeeps(setup, schedules, earlier, clock, target);
      var flush := FlushEvents<S>(st.hook.pushDue, clock, target);
      DrainOneMore(setup, schedules, earlier, flush, Commit(next, clock));
      PlainEventKeeps(setup, Run(setup, schedules, earlier + flush), Commit(next, clock));
    case FlushEffects(clock, target) => FlushStepKeeps(setup, schedules, earlier, clock, target);
    case Drag(ledger) => PlainStepKeeps(setup, schedules, earlier, CursorMoved(ledger));
    case WorkerAnswers => PlainStepKeeps(setup, schedules, earlier, WorkerStep);
    case AnswerArrives => PlainStepKeeps(setup, schedules, earlier, Deliver);
    case WorkerBreaks => PlainStepKeeps(setup, schedules, earlier, WorkerFailed);
  }

  lemma {:induction false} ClientReachable<S, R>(setup: Setup<S, R>, schedules: S, events: seq<ClientEvent<S>>)
    ensures ClientInvariant(setup, ClientRun(setup, schedules, events))
  {
    if events != [] {
      ClientReachable(setup, schedules, events[..|events| - 1]);
      ClientStepKeeps(setup, schedules, ClientEvents(setup, schedules, events[..|events| - 1]), events[|events| - 1]);
    }
  }

  /**
   * The timeline with its hook, over every run of commits, drags, answers and failures, with a worker or
   * without: once effects have run and both queues are empty it shows the latest schedules at the
   * latest cursor.
   */
  lemma ClientShowsCurrent<S, R>(setup: Setup<S, R>, schedules: S, events: seq<ClientEvent<S>>, st: State<S, R>)
    requires st == ClientRun(setup, schedules, events)
    requires !st.hook.pushDue && st.toWorker == [] && st.toMain == []
    ensures st.hook.lastCursor.Some? && ShowsCurrent(setup, st, st.hook.lastCursor.value)
  {
    ClientReachable(setup, schedules, events);
    if st.hook.workerUp {
      Quiescent(setup, schedules, ClientEvents(setup, schedules, events), st);
    }
  }

  /** And it always gets there: finishing the pending work shows what was current before. */
  lemma ClientSettles<S, R>(setup: Setup<S, R>, schedules: S, events: seq<ClientEvent<S>>, st: State<S, R>,
                            after: State<S, R>)
    requires st == ClientRun(setup, schedules, events) && !st.hook.pushDue
    requires after == Run(setup, schedules, ClientEvents(setup, schedules, events)
                                            + Drain(|st.toWorker|, |st.toWorker| + |st.toMain|))
    ensures after.hook.schedules == st.hook.schedules && after.hook.lastCursor == st.hook.lastCursor
    ensures after.hook.lastCursor.Some? && ShowsCurrent(setup, after, after.hook.lastCursor.value)
  {
    var inner := ClientEvents(setup, schedules, events);
    ClientReachable(setup, schedules, events);
    if st.hook.workerUp {
      DrainSettles(setup, schedules, inner, st, after);
    } else {
      assert inner + Drain<S>(0, 0) == inner;
    }
  }
}
