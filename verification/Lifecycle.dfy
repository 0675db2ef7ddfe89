/**
 * The infrastructure lifecycle as a state machine: calls of start(), stop() and check_readiness(), the release task
 * they share, and every outcome at the points where a coroutine is suspended. What runs between two of those points
 * is one step.
 */
module Lifecycle {
  import opened Values

  datatype State = NEW | STARTING | READY | STOPPING | STOPPED

  /** A resource: whether the runtime still refers to it, and the two flags the resource keeps itself. */
  datatype Holding = Holding(created: bool, owned: bool, closing: bool, closed: bool, releases: nat)

  const ABSENT := Holding(false, false, false, false, 0)
  const OPENED := Holding(true, true, false, false, 0)

  /** The fields every coroutine shares. `releases` counts the completed releases of a resource. */
  datatype Shared = Shared(state: State, database: Holding, redis: Holding)

  /** Where a release task stands. */
  datatype Stage = Scheduled | ClosingRedis | DisposingDatabase | Finished(how: Ending)
  datatype Ending = Completed | WasCancelled | Crashed

  /** What an awaited release does: completes, raises or times out, or is interrupted together with its task. */
  datatype Release = Released | NotReleased | Interrupted(cancelled: bool)

  // ---------------------------------------------------------------- what runs between two suspension points

  /** start() up to its first suspension. */
  function StartBegins(s: Shared, created: bool): Shared {
    if created then s.(state := STARTING, database := OPENED) else s.(state := STOPPING)
  }

  /** start() after the database answered: the Redis client is created, or the start fails. */
  function DatabaseAnswered(s: Shared, created: bool): Shared {
    if created then s.(redis := OPENED) else s.(state := STOPPING)
  }

  /** `if self._closed: return`, otherwise the flag that refuses new work is set before the await. */
  function BeginClosing(r: Holding): (Holding, bool) {
    if r.closed then (r, false) else (r.(closing := true), true)
  }

  function Drop(r: Holding): Holding {
    r.(owned := false)
  }

  /** The awaited release completed: the flag is set and the reference dropped without a suspension between them. */
  function Closed(r: Holding): Holding {
    Drop(r.(closed := true, releases := r.releases + 1))
  }

  /** The release task from its start. */
  function RunRelease(s: Shared): (Shared, Stage) {
    if !s.redis.owned then RunDatabase(s)
    else
      var (redis, awaits) := BeginClosing(s.redis);
      if awaits then (s.(redis := redis), ClosingRedis) else RunDatabase(s.(redis := Drop(redis)))
  }

  /** The release task once Redis has been dealt with. */
  function RunDatabase(s: Shared): (Shared, Stage) {
    if !s.database.owned then RunEnd(s)
    else
      var (database, awaits) := BeginClosing(s.database);
      if awaits then (s.(database := database), DisposingDatabase) else RunEnd(s.(database := Drop(database)))
  }

  function RunEnd(s: Shared): (Shared, Stage) {
    (if s.redis.owned || s.database.owned then s else s.(state := STOPPED), Finished(Completed))
  }

  function Interruption(cancelled: bool): Ending {
    if cancelled then WasCancelled else Crashed
  }

  function ResumeRedis(s: Shared, r: Release): (Shared, Stage) {
    match r
    case Released => RunDatabase(s.(redis := Closed(s.redis)))
    case NotReleased => RunDatabase(s)
    case Interrupted(cancelled) => (s, Finished(Interruption(cancelled)))
  }

  function ResumeDatabase(s: Shared, r: Release): (Shared, Stage) {
    match r
    case Released => RunEnd(s.(database := Closed(s.database)))
    case NotReleased => RunEnd(s)
    case Interrupted(cancelled) => (s, Finished(Interruption(cancelled)))
  }

  function Resume(s: Shared, stage: Stage, r: Release): (Shared, Stage) {
    match stage
    case Scheduled => if r == Interrupted(true) then (s, Finished(WasCancelled)) else RunRelease(s)
    case ClosingRedis => ResumeRedis(s, r)
    case DisposingDatabase => ResumeDatabase(s, r)
    case Finished(_) => (s, stage)
  }

  // ---------------------------------------------------------------- the world

  datatype Error = NotNew | IsStarting | StartFailed | CallerCancelled | ReleaseCancelled | ReleaseCrashed
  datatype Check = OK | FAILED | SKIPPED

  /**
   * One call of a method, by where it is suspended or how it ended. A call that awaits a release task may have been
   * asked to stop (`requested`) without having been woken for it yet; `pending` is a cancellation it was woken for
   * and put aside. `error` is what a failed start re-raises.
   */
  datatype Call =
    | VerifyingDatabase
    | VerifyingRedis
    | Releasing(task: nat, pending: bool, requested: bool, error: Option<Error>)
    | PingingDatabase
    | PingingRedis
    | Reported(ready: bool, postgres: Check, redis: Check)
    | Returned
    | Raised(raised: Error)

  datatype World = World(shared: Shared, tasks: seq<Stage>, releaseTask: Option<nat>, calls: seq<Call>)

  const START := World(Shared(NEW, ABSENT, ABSENT), [], None, [])

  /** What may happen next. Everything the model does not decide is part of the event. */
  datatype Event =
    | CallStart(created: bool)
    | DatabaseVerified(call: nat, created: bool)
    | RedisVerified(call: nat)
    | StartFails(call: nat, error: Error)
    | CallStop
    | TaskResumes(release: Release)
    | CancelCall(call: nat)
    | CallResumes(call: nat)
    | CallReadiness
    | PingEnds(call: nat, answered: bool)
    | AskDatabase
    | AskRedis

  function SetCall(w: World, call: nat, c: Call): World
    requires call < |w.calls|
  {
    w.(calls := w.calls[call := c])
  }

  /** stop() up to `_release`: how it ends if it does not come to that. */
  function StopBegins(s: Shared): (Shared, Option<Call>) {
    match s.state
    case NEW => (s.(state := STOPPED), Some(Returned))
    case STOPPED => (s, Some(Returned))
    case STARTING => (s, Some(Raised(IsStarting)))
    case READY => (s.(state := STOPPING), None)
    case STOPPING => (s, None)
  }

  /** check_readiness() up to its first await: a resource that is being released refuses its ping. */
  function ReadinessBegins(s: Shared): Call {
    if !s.state.READY? || !s.database.owned || !s.redis.owned then Reported(false, SKIPPED, SKIPPED)
    else if s.database.closing then Reported(false, FAILED, SKIPPED)
    else PingingDatabase
  }

  /** check_readiness() after a ping it awaited: the next one is made, or the report. */
  function ReadinessContinues(s: Shared, c: Call, answered: bool): Call {
    if c.PingingDatabase? then
      if !answered then Reported(false, FAILED, SKIPPED)
      else if s.redis.closing then Reported(false, OK, FAILED)
      else PingingRedis
    else if answered then Reported(true, OK, OK)
    else Reported(false, OK, FAILED)
  }

  predicate Unfinished(w: World, task: nat) {
    task < |w.tasks| && !w.tasks[task].Finished?
  }

  /** `_release` up to its first suspension: the unfinished task is joined, otherwise one is created. */
  function JoinRelease(w: World): (joined: World)
    ensures joined.releaseTask.Some? && joined.calls == w.calls
  {
    if w.releaseTask.Some? && Unfinished(w, w.releaseTask.value) then w
    else w.(tasks := w.tasks + [Scheduled], releaseTask := Some(|w.tasks|))
  }

  /** A call that entered `_release`. */
  function EnterRelease(w: World, call: nat, error: Option<Error>): World
    requires call < |w.calls|
  {
    var joined := JoinRelease(w);
    SetCall(joined, call, Releasing(joined.releaseTask.value, false, false, error))
  }

  /**
   * A call that awaits its release task is woken: for a cancellation, which it puts aside to await the task again, or
   * because the task is done. What the task raises ends the call there and then, before a cancellation that was put
   * aside is raised.
   */
  function Woken(c: Call, stage: Stage): Call
    requires c.Releasing? && (c.requested || stage.Finished?)
  {
    if !stage.Finished? then c.(pending := true, requested := false)
    else if stage.how.WasCancelled? then Raised(ReleaseCancelled)
    else if c.requested then Raised(CallerCancelled)
    else if stage.how.Crashed? then Raised(ReleaseCrashed)
    else if c.pending then Raised(CallerCancelled)
    else if c.error.Some? then Raised(c.error.value)
    else Returned
  }

  /** A call that is suspended where its caller can cancel it; a start is cancelled by `StartFails`. */
  predicate Cancellable(w: World, c: Call) {
    c.PingingDatabase? || c.PingingRedis? || (c.Releasing? && c.task < |w.tasks|)
  }

  predicate Enabled(w: World, e: Event) {
    match e
    case DatabaseVerified(call, _) => call < |w.calls| && w.calls[call].VerifyingDatabase?
    case RedisVerified(call) => call < |w.calls| && w.calls[call].VerifyingRedis?
    case StartFails(call, _) => call < |w.calls| && (w.calls[call].VerifyingDatabase? || w.calls[call].VerifyingRedis?)
    case TaskResumes(_) => w.releaseTask.Some? && Unfinished(w, w.releaseTask.value)
    case CancelCall(call) =>
      call < |w.calls| && Cancellable(w, w.calls[call])
    case CallResumes(call) =>
      && call < |w.calls| && w.calls[call].Releasing? && w.calls[call].task < |w.tasks|
      && (w.calls[call].requested || w.tasks[w.calls[call].task].Finished?)
    case PingEnds(call, _) => call < |w.calls| && (w.calls[call].PingingDatabase? || w.calls[call].PingingRedis?)
    case AskDatabase => w.shared.database.created
    case AskRedis => w.shared.redis.created
    case _ => true
  }

  function AddCall(w: World, c: Call): World {
    w.(calls := w.calls + [c])
  }

  /** One step. */
  function Next(w: World, e: Event): World
    requires Enabled(w, e)
  {
    match e
    case CallStart(created) =>
      if !w.shared.state.NEW? then AddCall(w, Raised(NotNew))
      else
        var begun := AddCall(w.(shared := StartBegins(w.shared, created)), VerifyingDatabase);
        if created then begun else EnterRelease(begun, |w.calls|, Some(StartFailed))
    case DatabaseVerified(call, created) =>
      var answered := w.(shared := DatabaseAnswered(w.shared, created));
      if created then SetCall(answered, call, VerifyingRedis) else EnterRelease(answered, call, Some(StartFailed))
    case RedisVerified(call) => SetCall(w.(shared := w.shared.(state := READY)), call, Returned)
    case StartFails(call, error) =>
      EnterRelease(w.(shared := w.shared.(state := STOPPING)), call, Some(error))
    case CallStop =>
      var (shared, ended) := StopBegins(w.shared);
      var called := AddCall(w.(shared := shared), if ended.Some? then ended.value else Returned);
      if ended.Some? then called else EnterRelease(called, |w.calls|, None)
    case TaskResumes(release) =>
      var task := w.releaseTask.value;
      var (shared, stage) := Resume(w.shared, w.tasks[task], release);
      w.(shared := shared, tasks := w.tasks[task := stage])
    case CancelCall(call) =>
      var c := w.calls[call];
      SetCall(w, call, if c.Releasing? then c.(requested := true) else Raised(CallerCancelled))
    case CallResumes(call) => SetCall(w, call, Woken(w.calls[call], w.tasks[w.calls[call].task]))
    case CallReadiness => AddCall(w, ReadinessBegins(w.shared))
    case PingEnds(call, answered) => SetCall(w, call, ReadinessContinues(w.shared, w.calls[call], answered))
    case AskDatabase => w
    case AskRedis => w
  }

  /** Whether the resource takes the work it is asked for. */
  predicate AdmitsDatabase(w: World, e: Event)
    requires Enabled(w, e)
  {
    match e
    case AskDatabase => !w.shared.database.closing
    case CallReadiness => Next(w, e).calls[|w.calls|].PingingDatabase?
    case _ => false
  }

  predicate AdmitsRedis(w: World, e: Event)
    requires Enabled(w, e)
  {
    match e
    case AskRedis => !w.shared.redis.closing
    case PingEnds(call, _) => Next(w, e).calls[call].PingingRedis?
    case _ => false
  }

  // ---------------------------------------------------------------- what every run keeps

  /** A resource is owned until its own release has completed, and released at most once. */
  ghost predicate Kept(r: Holding, state: State) {
    && (r.owned ==> r.created && !r.closed && r.releases == 0)
    && (r.created && !r.owned ==> r.closed && r.releases == 1)
    && (r.closed ==> r.closing)
    && (r.closing ==> r.created && (state.STOPPING? || state.STOPPED?))
    && (!r.created ==> r == ABSENT)
  }

  predicate Starting(c: Call) {
    c.VerifyingDatabase? || c.VerifyingRedis?
  }

  ghost predicate Inv(w: World) {
    var s := w.shared;
    && Kept(s.database, s.state) && Kept(s.redis, s.state)
    // One release task at a time, and it is the one referred to.
    && (w.releaseTask.Some? <==> w.tasks != [])
    && (w.releaseTask.Some? ==> w.releaseTask.value == |w.tasks| - 1)
    && (forall t :: 0 <= t < |w.tasks| - 1 ==> w.tasks[t].Finished?)
    && (w.tasks != [] ==> s.state.STOPPING? || s.state.STOPPED?)
    // Where the states stand.
    && (s.state.NEW? ==> !s.database.created && !s.redis.created)
    && (s.state.READY? ==> s.database.owned && s.redis.owned)
    && (s.state.STOPPED? ==> !s.database.owned && !s.redis.owned)
    && (s.state.STOPPING? ==> w.tasks != [])
    && (s.state.STOPPING? && w.tasks[|w.tasks| - 1] == Finished(Completed) ==> s.database.owned || s.redis.owned)
    && (s.state.STOPPED? && w.tasks != [] ==> w.tasks[|w.tasks| - 1].Finished?)
    // What the task has suspended is still owned and refuses new work.
    && (w.tasks != [] && w.tasks[|w.tasks| - 1].ClosingRedis? ==> s.redis.owned && s.redis.closing)
    && (w.tasks != [] && w.tasks[|w.tasks| - 1].DisposingDatabase? ==> s.database.owned && s.database.closing)
    // Calls.
    && (forall c :: 0 <= c < |w.calls| ==> CallOk(w, w.calls[c]))
    && (forall c, d :: 0 <= c < d < |w.calls| ==> !(Starting(w.calls[c]) && Starting(w.calls[d])))
  }

  ghost predicate CallOk(w: World, c: Call) {
    match c
    case VerifyingDatabase => w.shared.state.STARTING? && w.shared.database.owned && !w.shared.redis.created
    case VerifyingRedis => w.shared.state.STARTING? && w.shared.database.owned && w.shared.redis.owned
    case Releasing(task, _, _, _) => task < |w.tasks|
    case PingingDatabase => w.shared.database.created && w.shared.redis.created
    case PingingRedis => w.shared.database.created && w.shared.redis.created
    case Reported(ready, postgres, redis) =>
      (ready, postgres, redis) in
        {(true, OK, OK), (false, OK, FAILED), (false, FAILED, SKIPPED), (false, SKIPPED, SKIPPED)}
    case _ => true
  }

  /** A release task leaves the resources as they may stand, and says STOPPED only when it owns nothing. */
  lemma ResumeKeeps(s: Shared, stage: Stage, r: Release)
    requires Kept(s.database, s.state) && Kept(s.redis, s.state) && s.state.STOPPING?
    requires stage.ClosingRedis? ==> s.redis.owned && s.redis.closing
    requires stage.DisposingDatabase? ==> s.database.owned && s.database.closing
    ensures var (after, next) := Resume(s, stage, r);
      && Kept(after.database, after.state) && Kept(after.redis, after.state)
      && (after.state.STOPPING? || after.state.STOPPED?)
      && (after.state.STOPPED? ==> next.Finished? && !after.database.owned && !after.redis.owned)
      && (after.state.STOPPING? && next == Finished(Completed) && !stage.Finished? ==>
            after.database.owned || after.redis.owned)
      && (next.ClosingRedis? ==> after.redis.owned && after.redis.closing)
      && (next.DisposingDatabase? ==> after.database.owned && after.database.closing)
      && (after.database.owned ==> s.database.owned) && (after.redis.owned ==> s.redis.owned)
      && after.database.created == s.database.created && after.redis.created == s.redis.created
  {
  }

  /** Entering `_release` keeps what is kept, once the state says that release has begun. */
  lemma EnterKeeps(w: World, call: nat, error: Option<Error>)
    requires call < |w.calls| && w.shared.state.STOPPING?
    requires Inv(w.(shared := w.shared.(state := STOPPING))) || (w.tasks == [] && w.releaseTask.None?)
    requires Kept(w.shared.database, STOPPING) && Kept(w.shared.redis, STOPPING)
    requires forall c :: 0 <= c < |w.calls| && c != call ==> CallOk(w, w.calls[c]) && !Starting(w.calls[c])
    ensures Inv(EnterRelease(w, call, error))
  {
    var after := EnterRelease(w, call, error);
    forall c | 0 <= c < |after.calls| ensures CallOk(after, after.calls[c]) && !Starting(after.calls[c]) {
      if c != call { assert after.calls[c] == w.calls[c]; }
    }
  }

  /** Every step keeps the invariant. */
  lemma NextKeeps(w: World, e: Event)
    requires Inv(w) && Enabled(w, e)
    ensures Inv(Next(w, e))
  {
    match e {
      case TaskResumes(release) => TaskKeeps(w, release);
      case CallStart(created) => StartKeeps(w, created);
      case DatabaseVerified(call, created) => VerifiedKeeps(w, call, created);
      case RedisVerified(call) => ReadyKeeps(w, call);
      case StartFails(call, error) => StopsStarting(w, call, error, w.shared);
      case CallStop => StopKeeps(w);
      case CancelCall(call) => OneCallKeeps(w, call, Next(w, e).calls[call]);
      case CallResumes(call) => OneCallKeeps(w, call, Next(w, e).calls[call]);
      case PingEnds(call, answered) => OneCallKeeps(w, call, Next(w, e).calls[call]);
      case CallReadiness => NewCallKeeps(w, Next(w, e).calls[|w.calls|]);
      case AskDatabase =>
      case AskRedis =>
    }
  }

  lemma OneCallKeeps(w: World, call: nat, c: Call)
    requires Inv(w) && call < |w.calls| && CallOk(w, c) && !Starting(c)
    ensures Inv(SetCall(w, call, c))
  {
    var after := SetCall(w, call, c);
    forall d | 0 <= d < |after.calls| ensures CallOk(after, after.calls[d]) {
      assert after.calls[d] == if d == call then c else w.calls[d];
    }
  }

  lemma NewCallKeeps(w: World, c: Call)
    requires Inv(w) && CallOk(w, c) && !Starting(c)
    ensures Inv(AddCall(w, c))
  {
    var after := AddCall(w, c);
    forall d | 0 <= d < |after.calls| ensures CallOk(after, after.calls[d]) {
      assert after.calls[d] == if d == |w.calls| then c else w.calls[d];
    }
  }

  /** A start that fails, for whatever reason: nothing else is starting, and release begins. */
  lemma StopsStarting(w: World, call: nat, error: Error, s: Shared)
    requires Inv(w) && call < |w.calls| && Starting(w.calls[call])
    requires s.database == w.shared.database && (s.redis == w.shared.redis)
    ensures Inv(EnterRelease(w.(shared := s.(state := STOPPING)), call, Some(error)))
  {
    var stopped := w.(shared := s.(state := STOPPING));
    assert CallOk(w, w.calls[call]);
    forall c | 0 <= c < |w.calls| && c != call ensures CallOk(stopped, w.calls[c]) && !Starting(w.calls[c]) {
      assert CallOk(w, w.calls[c]);
    }
    EnterKeeps(stopped, call, Some(error));
  }

  lemma StartKeeps(w: World, created: bool)
    requires Inv(w)
    ensures Inv(Next(w, CallStart(created)))
  {
    if !w.shared.state.NEW? {
      NewCallKeeps(w, Raised(NotNew));
    } else {
      var begun := AddCall(w.(shared := StartBegins(w.shared, created)), VerifyingDatabase);
      forall c | 0 <= c < |w.calls| ensures CallOk(begun, begun.calls[c]) && !Starting(begun.calls[c]) {
        assert begun.calls[c] == w.calls[c] && CallOk(w, w.calls[c]);
      }
      if !created {
        EnterKeeps(begun, |w.calls|, Some(StartFailed));
      }
    }
  }

  lemma VerifiedKeeps(w: World, call: nat, created: bool)
    requires Inv(w) && Enabled(w, DatabaseVerified(call, created))
    ensures Inv(Next(w, DatabaseVerified(call, created)))
  {
    assert CallOk(w, w.calls[call]);
    if created {
      var after := Next(w, DatabaseVerified(call, created));
      forall c | 0 <= c < |after.calls| ensures CallOk(after, after.calls[c]) {
        assert after.calls[c] == if c == call then VerifyingRedis else w.calls[c];
        assert CallOk(w, w.calls[c]);
      }
    } else {
      StopsStarting(w, call, StartFailed, w.shared);
    }
  }

  lemma ReadyKeeps(w: World, call: nat)
    requires Inv(w) && Enabled(w, RedisVerified(call))
    ensures Inv(Next(w, RedisVerified(call)))
  {
    var after := Next(w, RedisVerified(call));
    assert CallOk(w, w.calls[call]);
    forall c | 0 <= c < |after.calls| ensures CallOk(after, after.calls[c]) {
      assert after.calls[c] == if c == call then Returned else w.calls[c];
      assert CallOk(w, w.calls[c]);
    }
  }

  lemma StopKeeps(w: World)
    requires Inv(w)
    ensures Inv(Next(w, CallStop))
  {
    var n := |w.calls|;
    forall c | 0 <= c < n ensures CallOk(w, w.calls[c]) {}
    match w.shared.state {
      case NEW =>
        var stopped := w.(shared := w.shared.(state := STOPPED));
        forall c | 0 <= c < n ensures CallOk(stopped, w.calls[c]) {}
        NewCallKeeps(stopped, Returned);
      case STOPPED => NewCallKeeps(w, Returned);
      case STARTING => NewCallKeeps(w, Raised(IsStarting));
      case _ =>
        var stopping := AddCall(w.(shared := w.shared.(state := STOPPING)), Returned);
        forall c | 0 <= c < n ensures CallOk(stopping, stopping.calls[c]) && !Starting(stopping.calls[c]) {
          assert stopping.calls[c] == w.calls[c];
        }
        if w.shared.state.STOPPING? { NewCallKeeps(w, Returned); }
        EnterKeeps(stopping, n, None);
    }
  }

  lemma TaskKeeps(w: World, release: Release)
    requires Inv(w) && Enabled(w, TaskResumes(release))
    ensures Inv(Next(w, TaskResumes(release)))
  {
    var task := w.releaseTask.value;
    var after := Next(w, TaskResumes(release));
    ResumeKeeps(w.shared, w.tasks[task], release);
    forall c | 0 <= c < |after.calls| ensures CallOk(after, after.calls[c]) {
      assert CallOk(w, w.calls[c]);
    }
  }

  // ---------------------------------------------------------------- every run

  /** A run: the worlds it goes through and the events between them. */
  ghost predicate Run(ws: seq<World>, es: seq<Event>) {
    && |ws| == |es| + 1 && ws[0] == START
    && forall i :: 0 <= i < |es| ==> Enabled(ws[i], es[i]) && ws[i + 1] == Next(ws[i], es[i])
  }

  lemma {:induction false} RunKeeps(ws: seq<World>, es: seq<Event>, i: nat)
    requires Run(ws, es) && i <= |es|
    ensures Inv(ws[i])
    decreases i
  {
    if i > 0 {
      RunKeeps(ws, es, i - 1);
      NextKeeps(ws[i - 1], es[i - 1]);
    }
  }

  /**
   * In every interleaving: STOPPED owns nothing, READY owns both resources, at most one release task is unfinished,
   * a reference is dropped only after its release completed, and nothing is released twice.
   */
  lemma EveryRunIsSafe(ws: seq<World>, es: seq<Event>, i: nat)
    requires Run(ws, es) && i <= |es|
    ensures var s := ws[i].shared;
      && (s.state.STOPPED? ==> !s.database.owned && !s.redis.owned)
      && (s.state.READY? ==> s.database.owned && s.redis.owned && !s.database.closing && !s.redis.closing)
      && (forall t :: 0 <= t < |ws[i].tasks| - 1 ==> ws[i].tasks[t].Finished?)
      && (s.database.created && !s.database.owned ==> s.database.closed)
      && (s.redis.created && !s.redis.owned ==> s.redis.closed)
      && s.database.releases <= 1 && s.redis.releases <= 1
      && (s.database.releases == 1 <==> s.database.closed) && (s.redis.releases == 1 <==> s.redis.closed)
  {
    RunKeeps(ws, es, i);
  }

  /** From one step to the next a resource is never taken back, reopened or released again. */
  ghost predicate Advances(before: Holding, after: Holding) {
    && (before.created ==> after.created)
    && (before.created && !before.owned ==> !after.owned)
    && (before.closing ==> after.closing)
    && (before.closed ==> after.closed)
    && before.releases <= after.releases
  }

  lemma NextAdvances(w: World, e: Event)
    requires Inv(w) && Enabled(w, e)
    ensures Advances(w.shared.database, Next(w, e).shared.database)
    ensures Advances(w.shared.redis, Next(w, e).shared.redis)
  {
    hide Resume;
    match e {
      case DatabaseVerified(call, _) => assert CallOk(w, w.calls[call]);
      case TaskResumes(release) => ResumeAdvances(w.shared, w.tasks[w.releaseTask.value], release);
      case _ =>
    }
  }

  lemma ResumeAdvances(s: Shared, stage: Stage, r: Release)
    ensures Advances(s.database, Resume(s, stage, r).0.database)
    ensures Advances(s.redis, Resume(s, stage, r).0.redis)
  {
  }

  lemma {:induction false} RunAdvances(ws: seq<World>, es: seq<Event>, i: nat, j: nat)
    requires Run(ws, es) && i <= j <= |es|
    ensures Advances(ws[i].shared.database, ws[j].shared.database)
    ensures Advances(ws[i].shared.redis, ws[j].shared.redis)
    decreases j
  {
    hide Next, Inv;
    if i < j {
      RunAdvances(ws, es, i, j - 1);
      RunKeeps(ws, es, j - 1);
      NextAdvances(ws[j - 1], es[j - 1]);
    }
  }

  /** Once the release of a resource began, no later transaction or ping is admitted, whoever still refers to it. */
  lemma NothingIsAdmittedAfterwards(ws: seq<World>, es: seq<Event>, i: nat, j: nat)
    requires Run(ws, es) && i <= j < |es|
    ensures ws[i].shared.database.closing ==> !AdmitsDatabase(ws[j], es[j])
    ensures ws[i].shared.redis.closing ==> !AdmitsRedis(ws[j], es[j])
  {
    RunAdvances(ws, es, i, j);
  }

  /** While release is under way, nothing new is ever owned. */
  lemma NothingIsAcquiredDuringRelease(w: World, e: Event)
    requires Inv(w) && Enabled(w, e) && (w.shared.state.STOPPING? || w.shared.state.STOPPED?)
    ensures var after := Next(w, e).shared;
      && (after.state.STOPPING? || after.state.STOPPED?)
      && (after.database.owned ==> w.shared.database.owned)
      && (after.redis.owned ==> w.shared.redis.owned)
  {
    forall c | 0 <= c < |w.calls| ensures !Starting(w.calls[c]) {
      assert CallOk(w, w.calls[c]);
    }
  }

  /** The call was cancelled before step `i`. */
  ghost predicate Cancelled(es: seq<Event>, i: nat, call: nat)
    requires i <= |es|
  {
    exists k :: 0 <= k < i && es[k] == CancelCall(call)
  }

  /** The call was cancelled before step `i` and not woken since: no await followed. */
  ghost predicate NotWoken(es: seq<Event>, i: nat, call: nat)
    requires i <= |es|
  {
    exists k :: 0 <= k < i && es[k] == CancelCall(call) && forall m :: k < m < i ==> es[m] != CallResumes(call)
  }

  /** The call has not been made, or is a start() that has not failed yet. */
  predicate NotReleasingYet(w: World, call: nat) {
    call >= |w.calls| || Starting(w.calls[call])
  }

  lemma StillNotReleasing(w: World, e: Event, call: nat)
    requires Enabled(w, e) && e != CancelCall(call)
    ensures NotReleasingYet(Next(w, e), call) ==> NotReleasingYet(w, call)
    ensures call < |Next(w, e).calls| && Next(w, e).calls[call].Releasing? ==>
      || (NotReleasingYet(w, call) && !Next(w, e).calls[call].pending && !Next(w, e).calls[call].requested)
      || (call < |w.calls| && w.calls[call].Releasing?
          && (Next(w, e).calls[call] == w.calls[call] || e == CallResumes(call)))
  {
    hide Resume, StartBegins, DatabaseAnswered;
  }

  lemma CancelStep(w: World, call: nat)
    requires Enabled(w, CancelCall(call))
    ensures call < |w.calls|
    ensures var c, after := w.calls[call], Next(w, CancelCall(call));
      && !NotReleasingYet(w, call) && !NotReleasingYet(after, call)
      && call < |after.calls|
      && after.calls[call] == if c.Releasing? then c.(requested := true) else Raised(CallerCancelled)
  {
  }

  lemma WakeStep(w: World, call: nat)
    requires Enabled(w, CallResumes(call))
    ensures call < |w.calls| && w.calls[call].Releasing? && w.calls[call].task < |w.tasks|
    ensures w.calls[call].requested || w.tasks[w.calls[call].task].Finished?
    ensures var after := Next(w, CallResumes(call));
      && call < |after.calls|
      && after.calls[call] == Woken(w.calls[call], w.tasks[w.calls[call].task])
  {
  }

  lemma CancelledStep(es: seq<Event>, i: nat, call: nat)
    requires i < |es|
    ensures Cancelled(es, i + 1, call) <==> Cancelled(es, i, call) || es[i] == CancelCall(call)
    ensures NotWoken(es, i + 1, call) <==>
      es[i] == CancelCall(call) || (NotWoken(es, i, call) && es[i] != CallResumes(call))
    ensures NotWoken(es, i, call) ==> Cancelled(es, i, call)
  {
  }

  /** What a call that awaits its task remembers of its cancellations. */
  ghost predicate Remembers(w: World, es: seq<Event>, i: nat, call: nat)
    requires i <= |es|
  {
    && (NotReleasingYet(w, call) ==> !Cancelled(es, i, call))
    && (call < |w.calls| && w.calls[call].Releasing? ==>
          && (w.calls[call].requested <==> NotWoken(es, i, call))
          && (w.calls[call].pending || w.calls[call].requested <==> Cancelled(es, i, call)))
  }

  lemma RememberStep(w: World, es: seq<Event>, i: nat, call: nat)
    requires i < |es| && Enabled(w, es[i]) && Remembers(w, es, i, call)
    ensures Remembers(Next(w, es[i]), es, i + 1, call)
  {
    hide Next, Enabled, Cancelled, NotWoken;
    CancelledStep(es, i, call);
    if es[i] == CancelCall(call) {
      CancelStep(w, call);
    } else {
      StillNotReleasing(w, es[i], call);
      if es[i] == CallResumes(call) { WakeStep(w, call); }
    }
  }

  lemma {:induction false} CancellationsAreKept(ws: seq<World>, es: seq<Event>, i: nat, call: nat)
    requires Run(ws, es) && i <= |es|
    ensures Remembers(ws[i], es, i, call)
    decreases i
  {
    hide Next, Enabled;
    if i > 0 {
      CancellationsAreKept(ws, es, i - 1, call);
      RememberStep(ws[i - 1], es, i - 1, call);
    }
  }

  /**
   * A call leaves `_release` only when its task is done, however often it was cancelled, and what it leaves with is
   * decided by how the task ended. A cancellation it received is raised then exactly if the task was not cancelled
   * itself, and either no await followed the cancellation or the task did not crash.
   */
  lemma ReleaseIsAwaited(ws: seq<World>, es: seq<Event>, i: nat, call: nat)
    requires Run(ws, es) && i < |es| && call < |ws[i].calls| && ws[i].calls[call].Releasing?
    ensures var c := ws[i].calls[call];
      && call < |ws[i + 1].calls|
      && var after := ws[i + 1].calls[call];
      && (after.Releasing? ==> after.task == c.task && after.error == c.error)
      && (after != c ==> es[i] == CancelCall(call) || es[i] == CallResumes(call))
      && (!after.Releasing? ==>
            && es[i] == CallResumes(call)
            && c.task < |ws[i].tasks| && ws[i].tasks[c.task].Finished?
            && after == Leaving(ws[i].tasks[c.task].how, c.error, Cancelled(es, i, call), NotWoken(es, i, call)))
  {
    hide Resume, StartBegins, DatabaseAnswered, ReadinessBegins, ReadinessContinues, Inv, Cancelled, NotWoken;
    RunKeeps(ws, es, i);
    CancellationsAreKept(ws, es, i, call);
    IsOk(ws[i], call);
  }

  /** How a call leaves `_release`: `cancelled` before, and `notWoken` if no await followed that. */
  function Leaving(how: Ending, error: Option<Error>, cancelled: bool, notWoken: bool): Call {
    if how.WasCancelled? then Raised(ReleaseCancelled)
    else if cancelled && (notWoken || !how.Crashed?) then Raised(CallerCancelled)
    else if how.Crashed? then Raised(ReleaseCrashed)
    else if error.Some? then Raised(error.value)
    else Returned
  }

  lemma IsOk(w: World, call: nat)
    requires Inv(w) && call < |w.calls|
    ensures CallOk(w, w.calls[call])
  {
  }

  /** A call whose task is done is never stuck: whatever it was asked, waking it ends it. */
  lemma DoneTasksEndTheirCalls(w: World, call: nat)
    requires Inv(w) && call < |w.calls| && w.calls[call].Releasing? && w.tasks[w.calls[call].task].Finished?
    ensures Enabled(w, CallResumes(call)) && !Next(w, CallResumes(call)).calls[call].Releasing?
  {
  }

  lemma OneMoreStep(ws: seq<World>, es: seq<Event>, e: Event)
    requires Run(ws, es) && Enabled(ws[|es|], e)
    ensures Run(ws + [Next(ws[|es|], e)], es + [e])
  {
    var ws', es' := ws + [Next(ws[|es|], e)], es + [e];
    forall i | 0 <= i < |es'| ensures Enabled(ws'[i], es'[i]) && ws'[i + 1] == Next(ws'[i], es'[i]) {
      if i < |es| { assert ws'[i + 1] == ws[i + 1]; }
    }
  }

  /** Two steps of a run. */
  lemma Twice(ws: seq<World>, es: seq<Event>, a: Event, b: Event) returns (ws': seq<World>, es': seq<Event>)
    requires Run(ws, es) && Enabled(ws[|es|], a) && Enabled(Next(ws[|es|], a), b)
    ensures Run(ws', es') && es' == es + [a, b] && ws'[|es'|] == Next(Next(ws[|es|], a), b)
  {
    OneMoreStep(ws, es, a);
    ws', es' := ws + [Next(ws[|es|], a)], es + [a];
    OneMoreStep(ws', es', b);
    ws', es' := ws' + [Next(ws'[|es'|], b)], es' + [b];
  }

  /** A run that is ready and has been asked to stop. */
  lemma StoppedRun() returns (ws: seq<World>, es: seq<Event>)
    ensures Run(ws, es) && es == [CallStart(true), DatabaseVerified(0, true), RedisVerified(0), CallStop]
    ensures ws[4] == World(Shared(STOPPING, OPENED, OPENED), [Scheduled], Some(0),
                           [Returned, Releasing(0, false, false, None)])
  {
    ws, es := Twice([START], [], CallStart(true), DatabaseVerified(0, true));
    ws, es := Twice(ws, es, RedisVerified(0), CallStop);
  }

  /** A caller that was cancelled and awaits the task again loses the cancellation if the task then crashes. */
  lemma ACrashLosesACancellation() returns (ws: seq<World>, es: seq<Event>)
    ensures Run(ws, es) && |es| == 9 && es[5] == CancelCall(1) && es[6] == es[8] == CallResumes(1)
    ensures ws[6].calls[1].Releasing? && ws[9].calls[1] == Raised(ReleaseCrashed)
  {
    ws, es := StoppedRun();
    OneMoreStep(ws, es, TaskResumes(Released));
    ws, es := ws + [Next(ws[4], TaskResumes(Released))], es + [TaskResumes(Released)];
    ws, es := Twice(ws, es, CancelCall(1), CallResumes(1));
    ws, es := Twice(ws, es, TaskResumes(Interrupted(false)), CallResumes(1));
  }

  /** What a report that was just made says of the step that made it. */
  ghost predicate Honest(w: World, e: Event, call: nat, report: Call)
    requires report.Reported?
  {
    && (report.ready <==> call < |w.calls| && w.calls[call].PingingRedis? && e == PingEnds(call, true))
    && (report.redis.SKIPPED? <==> !report.postgres.OK?)
    && (report.ready <==> report.postgres.OK? && report.redis.OK?)
    && (report.postgres.OK? ==> call < |w.calls| && (w.calls[call].PingingRedis? || w.shared.redis.closing))
  }

  lemma ReportIsHonest(w: World, e: Event, call: nat)
    requires Enabled(w, e) && call < |Next(w, e).calls| && Next(w, e).calls[call].Reported?
    requires call >= |w.calls| || w.calls[call] != Next(w, e).calls[call]
    ensures Honest(w, e, call, Next(w, e).calls[call])
  {
    hide Resume, StartBegins, DatabaseAnswered, JoinRelease;
  }

  /**
   * A report is ready only if both resources took their ping, Redis after the database had answered, and neither was
   * being released when it did; otherwise the first failure is named and nothing after it was tried.
   */
  lemma ReadinessIsHonest(ws: seq<World>, es: seq<Event>, i: nat, call: nat)
    requires Run(ws, es) && i < |es| && call < |ws[i + 1].calls| && ws[i + 1].calls[call].Reported?
    requires call >= |ws[i].calls| || ws[i].calls[call] != ws[i + 1].calls[call]
    ensures Honest(ws[i], es[i], call, ws[i + 1].calls[call])
  {
    hide Next, Enabled;
    ReportIsHonest(ws[i], es[i], call);
  }

  // ---------------------------------------------------------------- a further stop()

  function StepsLeft(stage: Stage): nat {
    match stage case Scheduled => 3 case ClosingRedis => 2 case DisposingDatabase => 1 case Finished(_) => 0
  }

  /** The world once the current release task is done, if every release it still awaits completes. */
  function Settled(w: World): (r: World)
    requires Inv(w) && w.tasks != []
    ensures r.tasks != []
    decreases StepsLeft(w.tasks[|w.tasks| - 1])
  {
    if w.tasks[|w.tasks| - 1].Finished? then w
    else
      NextKeeps(w, TaskResumes(Released));
      Settled(Next(w, TaskResumes(Released)))
  }

  /** The stage of the current release task. */
  function Current(w: World): Stage
    requires w.tasks != []
  {
    w.tasks[|w.tasks| - 1]
  }

  /** The world `Settled` is reached by steps of the task alone, each completing what it awaits. */
  lemma {:induction false} SettledIsReached(ws: seq<World>, es: seq<Event>) returns (ws': seq<World>, es': seq<Event>)
    requires Run(ws, es) && ws[|es|].tasks != []
    ensures Inv(ws[|es|]) && Run(ws', es') && ws'[|es'|] == Settled(ws[|es|])
    ensures |es| <= |es'| <= |es| + StepsLeft(Current(ws[|es|]))
    ensures forall i :: 0 <= i < |es'| ==> es'[i] == if i < |es| then es[i] else TaskResumes(Released)
    decreases StepsLeft(Current(ws[|es|]))
  {
    ws', es' := ws, es;
    RunKeeps(ws, es, |es|);
    var w := ws[|es|];
    if !Current(w).Finished? {
      OneMoreStep(ws, es, TaskResumes(Released));
      ws', es' := SettledIsReached(ws + [Next(w, TaskResumes(Released))], es + [TaskResumes(Released)]);
    }
  }

  /** What the current task leaves unreleased even if everything it still awaits completes. */
  predicate GaveUpRedis(w: World) {
    w.tasks != [] && w.tasks[|w.tasks| - 1].DisposingDatabase? && w.shared.redis.owned
  }

  lemma {:induction false} SettledStops(w: World)
    requires Inv(w) && w.shared.state.STOPPING? && !Current(w).Finished?
    ensures Settled(w).shared.state.STOPPED? <==> !GaveUpRedis(w)
    decreases StepsLeft(Current(w))
  {
    NextKeeps(w, TaskResumes(Released));
    var next := Next(w, TaskResumes(Released));
    if !Current(next).Finished? {
      SettledStops(next);
    }
  }

  /**
   * From any run that is STOPPING, one further stop() whose releases complete reaches STOPPED: unless it joins a
   * task that has already failed to close Redis, and then the stop() after it does.
   */
  lemma AFurtherStopReleases(ws: seq<World>, es: seq<Event>)
    requires Run(ws, es) && ws[|es|].shared.state.STOPPING?
    ensures Inv(ws[|es|]) && Inv(Next(ws[|es|], CallStop))
    ensures Next(ws[|es|], CallStop).tasks != []
    ensures var after := Settled(Next(ws[|es|], CallStop));
      && (after.shared.state.STOPPED? <==> !GaveUpRedis(ws[|es|]))
      && (GaveUpRedis(ws[|es|]) ==>
            && Inv(after) && Inv(Next(after, CallStop)) && Next(after, CallStop).tasks != []
            && Settled(Next(after, CallStop)).shared.state.STOPPED?)
  {
    RunKeeps(ws, es, |es|);
    var w := ws[|es|];
    NextKeeps(w, CallStop);
    var stopping := Next(w, CallStop);
    SettledStops(stopping);
    SettledKeeps(stopping);
    var after := Settled(stopping);
    if GaveUpRedis(w) {
      NextKeeps(after, CallStop);
      SettledStops(Next(after, CallStop));
    }
  }

  lemma {:induction false} SettledKeeps(w: World)
    requires Inv(w) && w.shared.state.STOPPING? && w.tasks != []
    ensures Inv(Settled(w)) && Current(Settled(w)).Finished?
    ensures Settled(w).shared.state.STOPPING? || Settled(w).shared.state.STOPPED?
    decreases StepsLeft(Current(w))
  {
    if !Current(w).Finished? {
      NextKeeps(w, TaskResumes(Released));
      var next := Next(w, TaskResumes(Released));
      if !Current(next).Finished? {
        SettledKeeps(next);
      }
    }
  }

  /** Such a task is reached: both releases are under way, and Redis could not be closed. */
  lemma ATaskGivesUpRedis() returns (ws: seq<World>, es: seq<Event>)
    ensures Run(ws, es) && ws[|es|].shared.state.STOPPING? && GaveUpRedis(ws[|es|])
    ensures Inv(Next(ws[|es|], CallStop)) && Next(ws[|es|], CallStop).tasks != []
    ensures Settled(Next(ws[|es|], CallStop)).shared.state.STOPPING?
  {
    ws, es := StoppedRun();
    ws, es := Twice(ws, es, TaskResumes(Released), TaskResumes(NotReleased));
    AFurtherStopReleases(ws, es);
    SettledKeeps(Next(ws[|es|], CallStop));
  }
}
