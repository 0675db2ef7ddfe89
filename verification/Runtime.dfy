/**
 * The objects of the lifecycle, updated in place. A coroutine is the sequence of its methods here: one for each
 * stretch of code between two suspensions, in which nothing else runs.
 */
module Runtime {
  import opened Lifecycle
  import opened Values

  class Database {
    var disposing: bool
    var disposed: bool
    ghost var releases: nat

    constructor ()
      ensures !disposing && !disposed && releases == 0
    {
      disposing, disposed, releases := false, false, 0;
    }

    /** The first check of transaction() and ping(). */
    method Admits() returns (admitted: bool)
      ensures admitted == !disposing
    {
      return !disposing;
    }

    /** dispose() up to its await; false if the pool is closed already. */
    method BeginDispose() returns (awaits: bool)
      modifies this`disposing
      ensures awaits == !disposed
      ensures disposing == (old(disposing) || awaits)
    {
      if disposed { return false; }
      disposing := true;
      return true;
    }

    /** dispose() after its await. */
    method EndDispose()
      modifies this`disposed, this`releases
      ensures disposed && releases == old(releases) + 1
    {
      disposed, releases := true, releases + 1;
    }
  }

  class RedisClient {
    var closing: bool
    var closed: bool
    ghost var releases: nat

    constructor ()
      ensures !closing && !closed && releases == 0
    {
      closing, closed, releases := false, false, 0;
    }

    method Admits() returns (admitted: bool)
      ensures admitted == !closing
    {
      return !closing;
    }

    method BeginClose() returns (awaits: bool)
      modifies this`closing
      ensures awaits == !closed
      ensures closing == (old(closing) || awaits)
    {
      if closed { return false; }
      closing := true;
      return true;
    }

    method EndClose()
      modifies this`closed, this`releases
      ensures closed && releases == old(releases) + 1
    {
      closed, releases := true, releases + 1;
    }
  }

  class ReleaseTask {
    var stage: Stage

    constructor ()
      ensures stage == Scheduled
    {
      stage := Scheduled;
    }
  }

  class InfrastructureRuntime {
    var state: State
    var database: Database?
    var redis: RedisClient?
    var releaseTask: ReleaseTask?
    // The resources ever created: others may still refer to them.
    ghost var theDatabase: Database?
    ghost var theRedis: RedisClient?

    ghost predicate Valid()
      reads this
    {
      && (database != null ==> database == theDatabase)
      && (redis != null ==> redis == theRedis)
    }

    ghost function View(): Shared
      reads this, theDatabase, theRedis
    {
      Shared(
        state,
        if theDatabase == null then ABSENT
        else Holding(true, database != null, theDatabase.disposing, theDatabase.disposed, theDatabase.releases),
        if theRedis == null then ABSENT
        else Holding(true, redis != null, theRedis.closing, theRedis.closed, theRedis.releases))
    }

    constructor ()
      ensures Valid() && View() == START.shared && releaseTask == null
    {
      state, database, redis, releaseTask, theDatabase, theRedis := NEW, null, null, null, null, null;
    }

    /** start() up to its first await; refused in any state but NEW. */
    method BeginStart(created: bool) returns (refused: Option<Call>)
      requires Valid()
      modifies this
      ensures Valid() && releaseTask == old(releaseTask)
      ensures if old(state) != NEW then refused == Some(Raised(NotNew)) && View() == old(View())
              else refused == None && View() == StartBegins(old(View()), created)
    {
      if state != NEW { return Some(Raised(NotNew)); }
      state := STARTING;
      if created {
        database := new Database();
        theDatabase := database;
      } else {
        state := STOPPING;
      }
      return None;
    }

    /** start() after `verify_database_baseline`. */
    method ContinueStart(created: bool)
      requires Valid()
      modifies this
      ensures Valid() && View() == DatabaseAnswered(old(View()), created) && releaseTask == old(releaseTask)
    {
      if created {
        redis := new RedisClient();
        theRedis := redis;
      } else {
        state := STOPPING;
      }
    }

    /** start() after `verify_baseline`. */
    method FinishStart()
      modifies this`state
      ensures View() == old(View()).(state := READY)
    {
      state := READY;
    }

    /** stop() up to `_release`. */
    method BeginStop() returns (ended: Option<Call>)
      requires Valid()
      modifies this`state
      ensures Valid() && (View(), ended) == StopBegins(old(View()))
    {
      match state {
        case NEW =>
          state := STOPPED;
          return Some(Returned);
        case STOPPED => return Some(Returned);
        case STARTING => return Some(Raised(IsStarting));
        case READY =>
          state := STOPPING;
          return None;
        case STOPPING => return None;
      }
    }

    /** check_readiness() up to its first await. */
    method BeginReadiness() returns (c: Call)
      requires Valid()
      ensures c == ReadinessBegins(View())
    {
      if state != READY || database == null || redis == null { return Reported(false, SKIPPED, SKIPPED); }
      var admitted := database.Admits();
      return if admitted then PingingDatabase else Reported(false, FAILED, SKIPPED);
    }

    /** check_readiness() once the database has answered: `client` is the reference it took at its start. */
    method ContinueReadiness(client: RedisClient) returns (c: Call)
      requires client == theRedis
      ensures c == ReadinessContinues(View(), PingingDatabase, true)
    {
      var admitted := client.Admits();
      return if admitted then PingingRedis else Reported(false, OK, FAILED);
    }

    /** `_release` up to its await: the unfinished task is joined, or a new one takes its place. */
    method JoinRelease() returns (task: ReleaseTask)
      modifies this`releaseTask
      ensures releaseTask == task && !task.stage.Finished?
      ensures if old(releaseTask) != null && !old(releaseTask.stage).Finished? then task == old(releaseTask)
              else fresh(task) && task.stage == Scheduled
    {
      if releaseTask == null || releaseTask.stage.Finished? {
        releaseTask := new ReleaseTask();
      }
      return releaseTask;
    }

    /**
     * `_release` each time it is woken at its await: by a cancellation (`cancelled`), or because its task is done.
     * Whatever leaves the await as an exception and is no cancellation leaves `_release` as well.
     */
    method WakeRelease(task: ReleaseTask, ghost index: nat, pending: bool, cancelled: bool, error: Option<Error>)
        returns (awaits: bool, ended: Option<Call>)
      requires cancelled || task.stage.Finished?
      ensures awaits <==> ended.None?
      ensures Woken(Releasing(index, pending, cancelled, error), task.stage)
           == if awaits then Releasing(index, true, false, error) else ended.value
    {
      var kept := pending;
      if cancelled {
        if task.stage == Finished(WasCancelled) { return false, Some(Raised(ReleaseCancelled)); }
        kept := true;
      } else {
        match task.stage.how {
          case WasCancelled => return false, Some(Raised(ReleaseCancelled));
          case Crashed => return false, Some(Raised(ReleaseCrashed));
          case Completed =>
        }
      }
      if !task.stage.Finished? { return true, None; }
      if kept { return false, Some(Raised(CallerCancelled)); }
      return false, Some(if error.Some? then Raised(error.value) else Returned);
    }

    /** `_release_owned_resources` from its start, or from the await at which the task stands. */
    method ResumeRelease(task: ReleaseTask, release: Release)
      requires Valid()
      requires task.stage.ClosingRedis? ==> redis != null
      requires task.stage.DisposingDatabase? ==> database != null
      modifies this, task, theDatabase, theRedis
      ensures Valid() && theDatabase == old(theDatabase) && theRedis == old(theRedis)
      ensures releaseTask == old(releaseTask)
      ensures (View(), task.stage) == Resume(old(View()), old(task.stage), release)
    {
      match task.stage {
        case Scheduled =>
          if release == Interrupted(true) {
            task.stage := Finished(WasCancelled);
            return;
          }
          if redis != null {
            var awaits := redis.BeginClose();
            if awaits {
              task.stage := ClosingRedis;
              return;
            }
            redis := null;
          }
          ReleaseDatabase(task);
        case ClosingRedis =>
          if release.Interrupted? {
            task.stage := Finished(Interruption(release.cancelled));
            return;
          }
          if release.Released? {
            redis.EndClose();
            redis := null;
          }
          ReleaseDatabase(task);
        case DisposingDatabase =>
          if release.Interrupted? {
            task.stage := Finished(Interruption(release.cancelled));
            return;
          }
          if release.Released? {
            database.EndDispose();
            database := null;
          }
          EndRelease(task);
        case Finished(_) =>
      }
    }

    method ReleaseDatabase(task: ReleaseTask)
      requires Valid()
      modifies this, task, theDatabase
      ensures Valid() && theDatabase == old(theDatabase) && theRedis == old(theRedis)
      ensures releaseTask == old(releaseTask)
      ensures (View(), task.stage) == RunDatabase(old(View()))
    {
      if database != null {
        var awaits := database.BeginDispose();
        if awaits {
          task.stage := DisposingDatabase;
          return;
        }
        database := null;
      }
      EndRelease(task);
    }

    method EndRelease(task: ReleaseTask)
      requires Valid()
      modifies this`state, task
      ensures Valid()
      ensures (View(), task.stage) == RunEnd(old(View()))
    {
      if redis == null && database == null {
        state := STOPPED;
      }
      task.stage := Finished(Completed);
    }
  }
}
