/** The refresh task of both snapshots (server/src/lib.rs:43-101,
    api/src/lib.rs:25-80) and the `/refresh/` handler: a guard flag, a
    30-minute rate limit, the fetch window, a one-shot completeness
    re-fetch, and the batch insert. The clock, the calendar day of an
    instant, the ULID randomness, the remote API and the database's
    statement failures are inputs. */
module Refresh {

  import opened Basics
  import opened Records
  import opened Store

  const NANOS_PER_MINUTE: nat := 60_000_000_000
  const NANOS_PER_DAY: nat := 86_400_000_000_000

  /** `chrono::Duration::minutes(30)`: the least spacing of two refreshes. */
  const MIN_INTERVAL: nat := 30 * NANOS_PER_MINUTE

  // ---------------------------------------------------------------- fetch

  /** A fetch window of calendar days, as day numbers. */
  datatype Window = Window(start: int, end: int)

  datatype FetchError =
    | InvalidDateRange        // the guard: `start >= end`
    | RemoteFailed(reason: string)

  /** The remote API: the result of the `attempt`-th request of a refresh
      for a window. */
  type Remote = (nat, Window) -> Result<seq<Record>, string>

  /** `fetch`: rejects an empty or inverted window before any request. */
  function Fetch(remote: Remote, attempt: nat, w: Window): (r: Result<seq<Record>, FetchError>)
    ensures r == Err(InvalidDateRange) <==> w.start >= w.end
    ensures r.Ok? ==> remote(attempt, w) == Ok(r.value)
    ensures r.Err? && w.start < w.end ==> remote(attempt, w).Err?
  {
    if w.start >= w.end then Err(InvalidDateRange)
    else match remote(attempt, w)
      case Ok(records) => Ok(records)
      case Err(reason) => Err(RemoteFailed(reason))
  }

  // ---------------------------------------------------------------- the environment

  /** Everything a refresh reads from outside the model: the `Utc::now()`
      taken at the start, the second one the server's insert takes, the
      server's local-time-zone day of an instant, the ULID randomness, the
      remote API, and the insert statements that fail. */
  datatype Env = Env(
    now: Time,
    later: Time,
    localDay: Time -> int,
    random: nat,
    remote: Remote,
    faults: set<Stage>)

  /** The calendar day of an instant: local time on the server, UTC in
      the api snapshot. */
  function Day(snap: Snapshot, env: Env, t: Time): int {
    match snap
    case Server => env.localDay(t)
    case Api => t / NANOS_PER_DAY
  }

  /** The time the insert stamps the batch with: a fresh `Utc::now()` on
      the server, the refresh's own `now` in the api snapshot. */
  function InsertTime(snap: Snapshot, env: Env): Time {
    match snap
    case Server => env.later
    case Api => env.now
  }

  /** The window of `DAYS_COUNT` days ending at `end`. */
  function FullWindow(snap: Snapshot, end: int): (w: Window)
    ensures w.end == end && w.end - w.start == DaysCount(snap) - 1 && w.start < w.end
  {
    Window(end - (DaysCount(snap) - 1), end)
  }

  /** The first fetch's window: `DAYS_COUNT` days up to today before the
      first batch; afterwards from the day after the last batch, but never
      later than yesterday, so at least one day is fetched. */
  function FirstWindow(snap: Snapshot, env: Env, last: Option<Time>): (w: Window)
    ensures w.end == Day(snap, env, env.now)
    ensures w.start < w.end
    ensures last.None? ==> w == FullWindow(snap, w.end)
    ensures last.Some? ==> w.start <= Day(snap, env, last.value) + 1
    ensures last.Some? ==> w.start == Day(snap, env, last.value) + 1 || w.start == w.end - 1
  {
    var end := Day(snap, env, env.now);
    match last
    case None => FullWindow(snap, end)
    case Some(t) => Window(if Day(snap, env, t) + 1 < end - 1 then Day(snap, env, t) + 1 else end - 1, end)
  }

  // ---------------------------------------------------------------- refresh

  /** What an `unwrap()` in `refresh` panicked on. */
  datatype Failure = FetchFailed(fetch: FetchError) | InsertFailed(insert: InsertError)

  datatype Outcome =
    | Busy                          // the flag was set: returned at once
    | TooSoon                       // the last batch is under 30 minutes old
    | Inserted                      // a batch was committed
    | Panicked(failure: Failure)    // the task died on an `unwrap()`

  /** The `RUNNING_REFRESH` flag and the database. */
  datatype State = State(running: bool, db: Db)

  /** A refresh's outcome, the state it leaves, the windows it fetched (in
      order) and the records it handed to the insert. */
  datatype Run = Run(outcome: Outcome, state: State, fetches: seq<Window>, batch: seq<Record>)

  /** `refresh` as written: a panic ends the task with the flag still set
      (the insert's transaction is rolled back, so the database is
      unchanged). */
  ghost function RefreshAsWritten(snap: Snapshot, s: State, env: Env): (run: Run)
    requires env.random < ULID_RANDOM_SPAN
    ensures s.running ==> run == Run(Busy, s, [], [])
    ensures !s.running ==> run.outcome != Busy
    ensures run.outcome == TooSoon <==>
              !s.running && LastUpdatedAt(snap, s.db).Some? && env.now - LastUpdatedAt(snap, s.db).value < MIN_INTERVAL
    ensures run.outcome == TooSoon ==> run.state == State(false, s.db) && run.fetches == []
    ensures run.outcome.Panicked? ==> run.state == State(true, s.db)
    ensures run.outcome == Inserted ==>
              && Insert(snap, s.db, InsertTime(snap, env), env.random, run.batch, env.faults).Ok?
              && run.state == State(false, Insert(snap, s.db, InsertTime(snap, env), env.random, run.batch, env.faults).value)
    ensures |run.fetches| <= 2
    ensures forall i :: 0 <= i < |run.fetches| ==> run.fetches[i].start < run.fetches[i].end
    ensures run.outcome.Panicked? ==> run.outcome.failure != FetchFailed(InvalidDateRange)
    ensures |run.fetches| > 0 ==> run.fetches[0] == FirstWindow(snap, env, LastUpdatedAt(snap, s.db))
    ensures |run.fetches| == 2 ==> run.fetches[1] == FullWindow(snap, Day(snap, env, env.now))
  {
    if s.running then Run(Busy, s, [], [])
    else
      var last := LastUpdatedAt(snap, s.db);
      if last.Some? && env.now - last.value < MIN_INTERVAL then Run(TooSoon, State(false, s.db), [], [])
      else
        var pre := if last.Some? then ActiveUsers(snap, s.db) else None;
        var w1 := FirstWindow(snap, env, last);
        match Fetch(env.remote, 0, w1)
        case Err(e) => Run(Panicked(FetchFailed(e)), State(true, s.db), [w1], [])
        case Ok(first) =>
          var refetch := pre.Some? && Ids(pre.value) != Wallets(first);
          var w2 := FullWindow(snap, Day(snap, env, env.now));
          var fetches := if refetch then [w1, w2] else [w1];
          match (if refetch then Fetch(env.remote, 1, w2) else Ok(first))
          case Err(e) => Run(Panicked(FetchFailed(e)), State(true, s.db), fetches, [])
          case Ok(records) =>
            match Insert(snap, s.db, InsertTime(snap, env), env.random, records, env.faults)
            case Err(e) => Run(Panicked(InsertFailed(e)), State(true, s.db), fetches, records)
            case Ok(db) => Run(Inserted, State(false, db), fetches, records)
  }

  /** `refresh` with every failure releasing the flag, as the TooSoon
      path and the successful path do: the same fetches, batch and
      database, but a panicked task no longer blocks every later one. */
  ghost function Refresh(snap: Snapshot, s: State, env: Env): (run: Run)
    requires env.random < ULID_RANDOM_SPAN
    ensures !s.running ==> !run.state.running
    ensures s.running ==> run == Run(Busy, s, [], [])
    ensures run.outcome.Panicked? ==> run.state == State(false, s.db)
    ensures run.outcome == RefreshAsWritten(snap, s, env).outcome
    ensures run.fetches == RefreshAsWritten(snap, s, env).fetches
    ensures run.state.db == RefreshAsWritten(snap, s, env).state.db
  {
    var run := RefreshAsWritten(snap, s, env);
    if run.outcome.Panicked? then run.(state := State(false, s.db)) else run
  }

  // ---------------------------------------------------------------- the handler

  datatype Reply =
    | AlreadyRunning   // 429 "Already running"
    | Started          // 200 "Refresh started", with `refresh` spawned

  /** The `/refresh/` handler's answer for the current flag. */
  function Handle(running: bool): (r: Reply)
    ensures r == AlreadyRunning <==> running
  {
    if running then AlreadyRunning else Started
  }

  /** A started refresh does real work: run right after the handler, it
      is never the Busy no-op. */
  lemma StartedRefreshIsNotBusy(snap: Snapshot, s: State, env: Env)
    requires env.random < ULID_RANDOM_SPAN
    requires Handle(s.running) == Started
    ensures RefreshAsWritten(snap, s, env).outcome != Busy
    ensures Refresh(snap, s, env).outcome != Busy
  {
  }

  // ---------------------------------------------------------------- properties

  /** A remote that is down. */
  const DOWN: Remote := (attempt: nat, w: Window) => Err("unreachable")

  /** The flag finding: with the remote down, the first refresh on an
      empty store panics on the fetch's `unwrap()` and leaves the flag
      set, after which every refresh is the Busy no-op and the handler
      answers "Already running" for good. The corrected `Refresh` leaves
      the flag clear. */
  lemma FlagStuckAsWritten(snap: Snapshot, env: Env, later: Env)
    requires env.random < ULID_RANDOM_SPAN && later.random < ULID_RANDOM_SPAN
    requires env.remote == DOWN
    ensures var run := RefreshAsWritten(snap, State(false, EMPTY), env);
            && run.outcome == Panicked(FetchFailed(RemoteFailed("unreachable")))
            && run.state.running
            && RefreshAsWritten(snap, run.state, later).outcome == Busy
            && Handle(run.state.running) == AlreadyRunning
    ensures var run := Refresh(snap, State(false, EMPTY), env);
            && run.outcome == Panicked(FetchFailed(RemoteFailed("unreachable")))
            && Handle(run.state.running) == Started
  {
    assert BatchKeys(snap, EMPTY) == {};
    var w1 := FirstWindow(snap, env, None);
    assert Fetch(env.remote, 0, w1) == Err(RemoteFailed("unreachable"));
  }

  /** The completeness check: once a batch exists and the first fetch
      succeeds, the full window is fetched again exactly when the fetched
      wallets differ from the latest batch's users, and the second result
      is inserted without being checked again. */
  lemma SingleRefetch(snap: Snapshot, s: State, env: Env)
    requires env.random < ULID_RANDOM_SPAN
    requires !s.running
    requires LastUpdatedAt(snap, s.db).Some? && env.now - LastUpdatedAt(snap, s.db).value >= MIN_INTERVAL
    requires env.remote(0, FirstWindow(snap, env, LastUpdatedAt(snap, s.db))).Ok?
    ensures var run := RefreshAsWritten(snap, s, env);
            var first := env.remote(0, FirstWindow(snap, env, LastUpdatedAt(snap, s.db))).value;
            var second := env.remote(1, FullWindow(snap, Day(snap, env, env.now)));
            && (|run.fetches| == 2 <==> Ids(ActiveUsers(snap, s.db).value) != Wallets(first))
            && (|run.fetches| == 1 && run.outcome == Inserted ==> run.batch == first)
            && (|run.fetches| == 2 && run.outcome == Inserted ==> second == Ok(run.batch))
  {
  }

  /** A refresh keeps the store's invariants. */
  lemma RefreshPreservesValid(snap: Snapshot, s: State, env: Env)
    requires env.random < ULID_RANDOM_SPAN
    requires Valid(snap, s.db)
    ensures Valid(snap, RefreshAsWritten(snap, s, env).state.db)
    ensures Valid(snap, Refresh(snap, s, env).state.db)
  {
    var run := RefreshAsWritten(snap, s, env);
    if run.outcome == Inserted {
      InsertPreservesValid(snap, s.db, InsertTime(snap, env), env.random, run.batch, env.faults);
    }
  }

  /** In the api snapshot a refresh that gets past the rate limit is
      always later than every stored batch. */
  lemma ApiRefreshIsNewest(s: State, env: Env)
    requires env.random < ULID_RANDOM_SPAN
    requires !s.running
    requires RefreshAsWritten(Api, s, env).outcome != TooSoon
    ensures Newest(Api, s.db, env.now, env.random, RefreshAsWritten(Api, s, env).batch)
  {
    var last := LastUpdatedAt(Api, s.db);
    if last.Some? {
      forall k | k in s.db.logs ensures s.db.logs[k] < env.now {
        assert k in BatchKeys(Api, s.db);
      }
    }
  }

  /** The rate limit: right after a committed batch that is the newest
      one, a refresh less than 30 minutes later (less 1 ms for the ULID's
      truncation on the server) is turned away without fetching. */
  lemma RefreshThenTooSoon(snap: Snapshot, s: State, env: Env, next: Env)
    requires env.random < ULID_RANDOM_SPAN && next.random < ULID_RANDOM_SPAN
    requires Valid(snap, s.db) && !s.running
    requires RefreshAsWritten(snap, s, env).outcome == Inserted
    requires snap == Server ==> Newest(snap, s.db, env.later, env.random, RefreshAsWritten(snap, s, env).batch)
    requires next.now + (if snap == Server then NANOS_PER_MILLI else 0) < InsertTime(snap, env) + MIN_INTERVAL
    ensures RefreshAsWritten(snap, RefreshAsWritten(snap, s, env).state, next).outcome == TooSoon
    ensures Refresh(snap, Refresh(snap, s, env).state, next).outcome == TooSoon
  {
    var run := RefreshAsWritten(snap, s, env);
    var t := InsertTime(snap, env);
    if snap == Api {
      ApiRefreshIsNewest(s, env);
    }
    NewBatchQueries(snap, s.db, t, env.random, run.batch, env.faults);
    if snap == Server {
      UlidClock(t, env.random, t, env.random);
    }
  }

  /** On the server a refresh that fetches no records commits nothing
      visible: the latest batch time stays where it was, so the next
      refresh is not rate-limited by it. The api snapshot logs the batch
      all the same. */
  lemma EmptyServerBatchLeavesNoTrace(s: State, env: Env)
    requires env.random < ULID_RANDOM_SPAN
    requires RefreshAsWritten(Server, s, env).outcome == Inserted
    requires RefreshAsWritten(Server, s, env).batch == []
    ensures RefreshAsWritten(Server, s, env).state.db == s.db
    ensures LastUpdatedAt(Server, RefreshAsWritten(Server, s, env).state.db) == LastUpdatedAt(Server, s.db)
  {
    EmptyBatch(Server, s.db, InsertTime(Server, env), env.random, env.faults);
  }
}
