/** The reconciliation store of both snapshots (server/src/usecase.rs and
    api/src/usecase.rs): the tables as maps keyed by their primary keys
    (migration/src/m20240410_000001_create_table.rs), the all-or-nothing
    batch insert, and the "latest batch" queries. The server snapshot keys
    a batch by a ULID stored in the membership rows; the api snapshot keys
    it by the auto-increment id of a `refresh_log` row carrying the batch
    time. */
module Store {

  import opened Basics
  import opened RecordDates
  import opened Records
  import opened Tables
  import opened Extremes

  /** Which snapshot of the design is meant. */
  datatype Snapshot = Server | Api

  /** `DAYS_COUNT`: how many days a first fetch covers. */
  function DaysCount(snap: Snapshot): (n: nat)
    ensures n == 30 || n == 28
  {
    match snap
    case Server => 30
    case Api => 28
  }

  /** An instant, in nanoseconds since the Unix epoch. */
  type Time = nat

  const NANOS_PER_MILLI: nat := 1_000_000

  /** 2^80: the span of a ULID's random part. */
  const ULID_RANDOM_SPAN: nat := 0x1_0000_0000_0000_0000_0000

  // ---------------------------------------------------------------- ULIDs

  /** `Ulid::from_datetime(now)` as a number: the millisecond timestamp
      above 80 random bits. The 26-character Crockford text of a ULID sorts
      as this number does, so `ORDER BY ulid DESC` picks the greatest. */
  function UlidKey(now: Time, random: nat): (k: nat)
    requires random < ULID_RANDOM_SPAN
    ensures k % ULID_RANDOM_SPAN == random
    ensures UlidTime(k) <= now < UlidTime(k) + NANOS_PER_MILLI
  {
    var k := (now / NANOS_PER_MILLI) * ULID_RANDOM_SPAN + random;
    assert k / ULID_RANDOM_SPAN == now / NANOS_PER_MILLI;
    k
  }

  /** `Ulid::datetime`: the instant of the ULID's timestamp part. */
  function UlidTime(key: nat): Time {
    (key / ULID_RANDOM_SPAN) * NANOS_PER_MILLI
  }

  /** The instant a ULID records is its creation time truncated to the
      millisecond, and a later millisecond gives a greater ULID whatever
      the random parts. */
  lemma UlidClock(now: Time, random: nat, later: Time, random2: nat)
    requires random < ULID_RANDOM_SPAN && random2 < ULID_RANDOM_SPAN
    ensures UlidTime(UlidKey(now, random)) <= now < UlidTime(UlidKey(now, random)) + NANOS_PER_MILLI
    ensures now / NANOS_PER_MILLI < later / NANOS_PER_MILLI ==> UlidKey(now, random) < UlidKey(later, random2)
  {
    var q := now / NANOS_PER_MILLI;
    assert UlidKey(now, random) / ULID_RANDOM_SPAN == q;
  }

  /** Reading the time back is monotone in the key. */
  lemma UlidTimeMonotone(a: nat, b: nat)
    requires a <= b
    ensures UlidTime(a) <= UlidTime(b)
  {
    assert a / ULID_RANDOM_SPAN <= b / ULID_RANDOM_SPAN;
  }

  // ---------------------------------------------------------------- tables

  /** The pix table's composite key. */
  datatype PixKey = PixKey(wallet: Wallet, date: Date)

  /** A `refreshed_users` row: this wallet was part of that batch. */
  datatype Member = Member(wallet: Wallet, batch: nat)

  /** A users row. */
  datatype User = User(id: Wallet, pgritId: string)

  /** The database. `logs` is the api snapshot's `refresh_log` table (id to
      `updated_at`); the server snapshot has no such table and keeps it
      empty. */
  datatype Db = Db(
    users: map<Wallet, string>,
    students: map<Wallet, Student>,
    members: set<Member>,
    logs: map<nat, Time>,
    pix: map<PixKey, U32>)

  const EMPTY: Db := Db(map[], map[], {}, map[], map[])

  /** The store's invariants. The schema enforces only the two uniqueness
      clauses, through `unique_key` on `pgrit_id` and on the log's
      `updated_at`, and declares no foreign keys. The other clauses hold
      only because `insert` writes them together: every student, member and
      pix row belongs to a user, every user with pix rows belongs to some
      batch, and in the api snapshot every batch is a log row. */
  predicate Valid(snap: Snapshot, db: Db) {
    && (forall w1, w2 :: w1 in db.users && w2 in db.users && db.users[w1] == db.users[w2] ==> w1 == w2)
    && (forall w :: w in db.students ==> w in db.users && db.students[w].userId == w)
    && (forall m :: m in db.members ==> m.wallet in db.users)
    && (forall k :: k in db.pix ==> k.wallet in db.users && exists m :: m in db.members && m.wallet == k.wallet)
    && (snap == Server ==> db.logs == map[])
    && (snap == Api ==> forall m :: m in db.members ==> m.batch in db.logs)
    && (snap == Api ==> forall i, j :: i in db.logs && j in db.logs && db.logs[i] == db.logs[j] ==> i == j)
  }

  // ---------------------------------------------------------------- batches

  /** The keys of the batches stored so far. */
  function BatchKeys(snap: Snapshot, db: Db): set<nat> {
    match snap
    case Server => set m | m in db.members :: m.batch
    case Api => db.logs.Keys
  }

  /** A batch's time: read from the ULID (server) or the log row (api). */
  function BatchTime(snap: Snapshot, db: Db, k: nat): Time
    requires snap == Api ==> k in db.logs
  {
    match snap
    case Server => UlidTime(k)
    case Api => db.logs[k]
  }

  /** The batch the "latest" queries select: the greatest ULID among the
      membership rows (server), or the log row with the greatest
      `updated_at` (api). */
  ghost function LatestBatch(snap: Snapshot, db: Db): (r: Option<nat>)
    ensures r.None? <==> BatchKeys(snap, db) == {}
    ensures r.Some? ==> r.value in BatchKeys(snap, db)
    ensures r.Some? && snap == Server ==> forall k :: k in BatchKeys(snap, db) ==> k <= r.value
    ensures r.Some? && snap == Api ==> forall k :: k in db.logs ==> db.logs[k] <= db.logs[r.value]
  {
    if BatchKeys(snap, db) == {} then None
    else match snap
      case Server => Some(Max(BatchKeys(snap, db)))
      case Api =>
        var t := Max(db.logs.Values);
        var id :| id in db.logs && db.logs[id] == t;
        assert forall k :: k in db.logs ==> db.logs[k] in db.logs.Values;
        Some(id)
  }

  /** `get_last_updated_at`: the latest batch's time, `None` before the
      first batch. */
  ghost function LastUpdatedAt(snap: Snapshot, db: Db): (r: Option<Time>)
    ensures r.None? <==> BatchKeys(snap, db) == {}
    ensures r.Some? ==> forall k :: k in BatchKeys(snap, db) ==> BatchTime(snap, db, k) <= r.value
    ensures r.Some? ==> r.value == BatchTime(snap, db, LatestBatch(snap, db).value)
  {
    match LatestBatch(snap, db)
    case None => None
    case Some(b) =>
      assert forall k :: k in BatchKeys(snap, db) ==> BatchTime(snap, db, k) <= BatchTime(snap, db, b) by {
        forall k | k in BatchKeys(snap, db) ensures BatchTime(snap, db, k) <= BatchTime(snap, db, b) {
          if snap == Server {
            UlidTimeMonotone(k, b);
          }
        }
      }
      Some(BatchTime(snap, db, b))
  }

  /** `active_users`: the users of the latest batch, `None` before the
      first batch. */
  ghost function ActiveUsers(snap: Snapshot, db: Db): (r: Option<set<User>>)
    ensures r.None? <==> BatchKeys(snap, db) == {}
    ensures r.Some? ==> forall u :: u in r.value <==>
              Member(u.id, LatestBatch(snap, db).value) in db.members && u.id in db.users
              && u.pgritId == db.users[u.id]
  {
    match LatestBatch(snap, db)
    case None => None
    case Some(b) =>
      Some(set m | m in db.members && m.batch == b && m.wallet in db.users :: User(m.wallet, db.users[m.wallet]))
  }

  /** The wallets of a user list (the `.map(|u| u.id)` of `refresh`). */
  function Ids(users: set<User>): set<Wallet> {
    set u | u in users :: u.id
  }

  // ---------------------------------------------------------------- insert: the rows

  /** The users rows of a batch, in record order. */
  function UserRows(records: seq<Record>): (rows: seq<(Wallet, string)>)
    ensures |rows| == |records|
    ensures forall i :: 0 <= i < |records| ==> rows[i] == (records[i].wallet, records[i].id)
  {
    seq(|records|, i requires 0 <= i < |records| => (records[i].wallet, records[i].id))
  }

  /** The students rows of a batch: one per record whose student fields
      are all present, in record order. */
  function StudentRows(records: seq<Record>): (rows: seq<(Wallet, Student)>)
    ensures forall i :: 0 <= i < |rows| ==> rows[i].1.userId == rows[i].0
    decreases |records|
  {
    if records == [] then []
    else
      var head := match CreateStudent(records[0])
        case Some(st) => [(st.userId, st)]
        case None => [];
      head + StudentRows(records[1..])
  }

  /** The student row of the last record for `w` that has every student
      field. */
  function LastStudent(records: seq<Record>, w: Wallet): (s: Option<Student>)
    ensures s.Some? ==> s.value.userId == w && w in Wallets(records)
    decreases |records|
  {
    if records == [] then None
    else match LastStudent(records[1..], w)
      case Some(st) => Some(st)
      case None => if records[0].wallet == w then CreateStudent(records[0]) else None
  }

  /** One pix row per entry of a record's daily map, in the map's
      (unspecified) iteration order. */
  ghost function DailyRows(w: Wallet, daily: map<Date, U32>): (rows: seq<(PixKey, U32)>)
    ensures forall i :: 0 <= i < |rows| ==>
              rows[i].0.wallet == w && rows[i].0.date in daily && rows[i].1 == daily[rows[i].0.date]
    ensures forall d :: d in daily ==> exists i :: 0 <= i < |rows| && rows[i].0 == PixKey(w, d)
    decreases |daily|
  {
    if |daily| == 0 then []
    else
      var d :| d in daily;
      var rest := DailyRows(w, daily - {d});
      Covers(w, daily, d, rest);
      [(PixKey(w, d), daily[d])] + rest
  }

  lemma Covers(w: Wallet, daily: map<Date, U32>, d: Date, rest: seq<(PixKey, U32)>)
    requires d in daily
    requires forall e :: e in daily - {d} ==> exists i :: 0 <= i < |rest| && rest[i].0 == PixKey(w, e)
    ensures forall e :: e in daily ==>
              exists i :: 0 <= i < |rest| + 1 && ([(PixKey(w, d), daily[d])] + rest)[i].0 == PixKey(w, e)
  {
    var rows := [(PixKey(w, d), daily[d])] + rest;
    forall e | e in daily ensures exists i :: 0 <= i < |rest| + 1 && rows[i].0 == PixKey(w, e) {
      if e == d {
        assert rows[0].0 == PixKey(w, e);
      } else {
        assert e in daily - {d};
        var i :| 0 <= i < |rest| && rest[i].0 == PixKey(w, e);
        assert rows[i + 1].0 == PixKey(w, e);
      }
    }
  }

  /** The pending pix vector: every record's daily rows, records in
      order. */
  ghost function PendingPix(records: seq<Record>): seq<(PixKey, U32)>
    decreases |records|
  {
    if records == [] then [] else DailyRows(records[0].wallet, records[0].daily) + PendingPix(records[1..])
  }

  /** The amount the first record with this wallet and day reports. */
  function FirstDaily(records: seq<Record>, k: PixKey): (a: Option<U32>)
    ensures a.Some? ==> k.wallet in Wallets(records)
    decreases |records|
  {
    if records == [] then None
    else if records[0].wallet == k.wallet && k.date in records[0].daily then Some(records[0].daily[k.date])
    else FirstDaily(records[1..], k)
  }

  /** A record's daily rows hold exactly its own entries. */
  lemma DailyRowsFirst(w: Wallet, daily: map<Date, U32>, k: PixKey)
    ensures FirstValue(DailyRows(w, daily), k) == if k.wallet == w && k.date in daily then Some(daily[k.date]) else None
  {
    var rows := DailyRows(w, daily);
    if k.wallet == w && k.date in daily {
      FirstValueOfUniform(rows, k, daily[k.date]);
    } else {
      var v :| true;
      FirstValueOfUniform(rows, k, v);
    }
  }

  /** Among the pending rows, the first for a key is the first record's
      entry for that wallet and day. */
  lemma {:induction false} PendingFirst(records: seq<Record>, k: PixKey)
    ensures FirstValue(PendingPix(records), k) == FirstDaily(records, k)
    decreases |records|
  {
    if records != [] {
      var head := DailyRows(records[0].wallet, records[0].daily);
      FirstValueAppend(head, PendingPix(records[1..]), k);
      DailyRowsFirst(records[0].wallet, records[0].daily, k);
      PendingFirst(records[1..], k);
    }
  }

  /** The students rows' last row for a wallet is `LastStudent`. */
  lemma {:induction false} StudentRowsLast(records: seq<Record>, w: Wallet)
    ensures LastValue(StudentRows(records), w) == LastStudent(records, w)
    decreases |records|
  {
    if records != [] {
      var head := match CreateStudent(records[0])
        case Some(st) => [(st.userId, st)]
        case None => [];
      LastValueAppend(head, StudentRows(records[1..]), w);
      StudentRowsLast(records[1..], w);
      if head != [] {
        assert LastValue(head[1..], w) == None;
      }
    }
  }

  // ---------------------------------------------------------------- insert: the transaction

  /** The statements of the insert transaction, each of which the database
      may fail for reasons outside the model (I/O, locking, ...). */
  datatype Stage = LogStage | UsersStage | StudentsStage | MembersStage | PixStage(chunk: nat)

  datatype InsertError =
    | Failed(stage: Stage)                        // the statement reported an error
    | PgritIdTaken(wallet: Wallet, pgritId: string) // the users row would duplicate a pgrit id
    | UpdatedAtTaken(at: Time)                    // the log row would duplicate an `updated_at`

  /** Another wallet than the row's already holds the row's pgrit id. */
  predicate Taken(users: map<Wallet, string>, row: (Wallet, string)) {
    exists w :: w in users && w != row.0 && users[w] == row.1
  }

  /** The users upsert (`ON CONFLICT (id) DO UPDATE SET pgrit_id`), one
      row at a time: a row whose pgrit id another wallet already holds
      violates the unique key and fails the statement. It fails exactly
      when some row meets a taken id in the table the rows before it left,
      and the error names that row. */
  function UpsertUsers(users: map<Wallet, string>, rows: seq<(Wallet, string)>): (r: Result<map<Wallet, string>, InsertError>)
    ensures r.Ok? ==> r.value == Upsert(users, rows)
    ensures r.Ok? <==> forall i :: 0 <= i < |rows| ==> !Taken(Upsert(users, rows[..i]), rows[i])
    ensures r.Err? ==>
              && r.error.PgritIdTaken?
              && exists i :: 0 <= i < |rows| && rows[i] == (r.error.wallet, r.error.pgritId)
                             && Taken(Upsert(users, rows[..i]), rows[i])
    decreases |rows|
  {
    if rows == [] then Ok(users)
    else
      assert rows[..0] == [];
      if Taken(users, rows[0]) then Err(PgritIdTaken(rows[0].0, rows[0].1))
      else
        var next := users[rows[0].0 := rows[0].1];
        var r := UpsertUsers(next, rows[1..]);
        assert forall i :: 0 <= i < |rows[1..]| ==>
                 rows[1..][i] == rows[i + 1] && Upsert(next, rows[1..][..i]) == Upsert(users, rows[..i + 1]) by {
          forall i | 0 <= i < |rows[1..]|
            ensures Upsert(next, rows[1..][..i]) == Upsert(users, rows[..i + 1])
          {
            assert rows[..i + 1][0] == rows[0] && rows[..i + 1][1..] == rows[1..][..i];
          }
        }
        r
  }

  /** A users upsert that succeeds keeps pgrit ids unique. */
  lemma {:induction false} UpsertUsersKeepsUnique(users: map<Wallet, string>, rows: seq<(Wallet, string)>)
    requires forall w1, w2 :: w1 in users && w2 in users && users[w1] == users[w2] ==> w1 == w2
    requires UpsertUsers(users, rows).Ok?
    ensures var u := UpsertUsers(users, rows).value;
            forall w1, w2 :: w1 in u && w2 in u && u[w1] == u[w2] ==> w1 == w2
    decreases |rows|
  {
    if rows != [] {
      var next := users[rows[0].0 := rows[0].1];
      assert forall w1, w2 :: w1 in next && w2 in next && next[w1] == next[w2] ==> w1 == w2;
      UpsertUsersKeepsUnique(next, rows[1..]);
    }
  }

  /** The pix chunks, one statement each, in pop order; chunk `done + i`
      is the `i`-th of `chunks`. */
  function UpsertChunks(pix: map<PixKey, U32>, chunks: seq<seq<(PixKey, U32)>>, faults: set<Stage>, done: nat)
    : (r: Result<map<PixKey, U32>, InsertError>)
    ensures r.Ok? <==> forall j :: done <= j < done + |chunks| ==> PixStage(j) !in faults
    ensures r.Ok? ==> r.value == Upsert(pix, Flatten(chunks))
    ensures r.Err? ==> r.error.Failed? && r.error.stage.PixStage?
    decreases |chunks|
  {
    if chunks == [] then Ok(pix)
    else if PixStage(done) in faults then Err(Failed(PixStage(done)))
    else
      var r := UpsertChunks(Upsert(pix, chunks[0]), chunks[1..], faults, done + 1);
      UpsertAppend(pix, chunks[0], Flatten(chunks[1..]));
      r
  }

  /** The key of the batch an insert creates: the ULID of `now` (server),
      or the next auto-increment `refresh_log` id (api). */
  ghost function NewBatchKey(snap: Snapshot, db: Db, now: Time, random: nat): (k: nat)
    requires random < ULID_RANDOM_SPAN
    ensures snap == Api ==> k !in db.logs
  {
    match snap
    case Server => UlidKey(now, random)
    case Api => if db.logs == map[] then 1 else Max(db.logs.Keys) + 1
  }

  /** The membership rows of the new batch: one per wallet (the
      `ON CONFLICT DO NOTHING` drops a wallet's repeats). */
  function NewMembers(records: seq<Record>, key: nat): set<Member> {
    set i | 0 <= i < |records| :: Member(records[i].wallet, key)
  }

  /** No statement the transaction executes fails. A multi-row insert
      with no rows is skipped (`do_nothing` turns it into a no-op), so a
      fault of its stage is never reached. */
  ghost predicate NoFault(snap: Snapshot, records: seq<Record>, faults: set<Stage>) {
    && (snap == Api ==> LogStage !in faults)
    && (records != [] ==> UsersStage !in faults && MembersStage !in faults)
    && (StudentRows(records) != [] ==> StudentsStage !in faults)
    && forall j :: 0 <= j < |Chunks(PendingPix(records))| ==> PixStage(j) !in faults
  }

  /** `insert`: builds the rows, then in one transaction writes the log row
      (api), upserts users and students, adds the membership rows and
      upserts the pix chunks. Any failure rolls everything back, so the
      caller keeps `db`; on success the result is the committed state. */
  ghost function Insert(snap: Snapshot, db: Db, now: Time, random: nat, records: seq<Record>, faults: set<Stage>)
    : (r: Result<Db, InsertError>)
    requires random < ULID_RANDOM_SPAN
    ensures r.Ok? <==>
              NoFault(snap, records, faults) && UpsertUsers(db.users, UserRows(records)).Ok?
              && (snap == Api ==> now !in db.logs.Values)
  {
    var key := NewBatchKey(snap, db, now, random);
    var logs: Result<map<nat, Time>, InsertError> :=
      if snap == Server then Ok(db.logs)
      else if LogStage in faults then Err(Failed(LogStage))
      else if now in db.logs.Values then Err(UpdatedAtTaken(now))
      else Ok(db.logs[key := now]);
    match logs
    case Err(e) => Err(e)
    case Ok(logs) =>
      if records != [] && UsersStage in faults then Err(Failed(UsersStage))
      else match UpsertUsers(db.users, UserRows(records))
        case Err(e) => Err(e)
        case Ok(users) =>
          if StudentRows(records) != [] && StudentsStage in faults then Err(Failed(StudentsStage))
          else if records != [] && MembersStage in faults then Err(Failed(MembersStage))
          else
            var students := Upsert(db.students, StudentRows(records));
            var members := db.members + NewMembers(records, key);
            match UpsertChunks(db.pix, Chunks(PendingPix(records)), faults, 0)
            case Err(e) => Err(e)
            case Ok(pix) => Ok(Db(users, students, members, logs, pix))
  }

  /** What a refresh leaves behind: the committed state, or the untouched
      pre-state after a rollback. */
  function Committed(db: Db, r: Result<Db, InsertError>): Db {
    if r.Ok? then r.value else db
  }

  // ---------------------------------------------------------------- insert: what is committed

  /** The tables of a committed insert, statement by statement. */
  lemma InsertParts(snap: Snapshot, db: Db, now: Time, random: nat, records: seq<Record>, faults: set<Stage>)
    requires random < ULID_RANDOM_SPAN
    requires Insert(snap, db, now, random, records, faults).Ok?
    ensures var r := Insert(snap, db, now, random, records, faults).value;
            var key := NewBatchKey(snap, db, now, random);
            && r.users == Upsert(db.users, UserRows(records))
            && r.students == Upsert(db.students, StudentRows(records))
            && r.members == db.members + NewMembers(records, key)
            && r.logs == (if snap == Server then db.logs else db.logs[key := now])
            && r.pix == Upsert(db.pix, Flatten(Chunks(PendingPix(records))))
  {
    var key := NewBatchKey(snap, db, now, random);
    var logs := if snap == Server then db.logs else db.logs[key := now];
    var users := UpsertUsers(db.users, UserRows(records));
    var pix := UpsertChunks(db.pix, Chunks(PendingPix(records)), faults, 0);
    assert users.Ok? && pix.Ok?;
    var students := Upsert(db.students, StudentRows(records));
    var members := db.members + NewMembers(records, key);
    assert Insert(snap, db, now, random, records, faults) == Ok(Db(users.value, students, members, logs, pix.value));
  }

  /** The first record that reports an amount for a wallet and day. */
  lemma {:induction false} FirstDailyIndex(records: seq<Record>, k: PixKey)
    ensures FirstDaily(records, k).Some? <==>
              exists i :: 0 <= i < |records| && records[i].wallet == k.wallet && k.date in records[i].daily
    ensures FirstDaily(records, k).Some? ==>
              exists i :: 0 <= i < |records| && records[i].wallet == k.wallet && k.date in records[i].daily
                          && FirstDaily(records, k).value == records[i].daily[k.date]
                          && forall j :: 0 <= j < i ==> !(records[j].wallet == k.wallet && k.date in records[j].daily)
    decreases |records|
  {
    if records != [] {
      var tail := records[1..];
      FirstDailyIndex(tail, k);
      if !(records[0].wallet == k.wallet && k.date in records[0].daily) {
        if exists i :: 0 <= i < |records| && records[i].wallet == k.wallet && k.date in records[i].daily {
          var i :| 0 <= i < |records| && records[i].wallet == k.wallet && k.date in records[i].daily;
          assert tail[i - 1] == records[i];
        }
        if FirstDaily(tail, k).Some? {
          var i :| 0 <= i < |tail| && tail[i].wallet == k.wallet && k.date in tail[i].daily
                   && FirstDaily(tail, k).value == tail[i].daily[k.date]
                   && forall j :: 0 <= j < i ==> !(tail[j].wallet == k.wallet && k.date in tail[j].daily);
          assert records[i + 1] == tail[i];
          forall j | 0 <= j < i + 1 ensures !(records[j].wallet == k.wallet && k.date in records[j].daily) {
            if j > 0 {
              assert records[j] == tail[j - 1];
            }
          }
        }
      }
    }
  }

  /** Users: a wallet of the batch gets the pgrit id of its LAST record;
      any other user keeps its row. */
  lemma CommittedUser(snap: Snapshot, db: Db, now: Time, random: nat, records: seq<Record>, faults: set<Stage>, w: Wallet)
    requires random < ULID_RANDOM_SPAN
    requires Insert(snap, db, now, random, records, faults).Ok?
    ensures var r := Insert(snap, db, now, random, records, faults).value;
            && (w in r.users <==> w in db.users || w in Wallets(records))
            && (w in Wallets(records) ==>
                  exists i :: 0 <= i < |records| && records[i].wallet == w && r.users[w] == records[i].id
                              && forall j :: i < j < |records| ==> records[j].wallet != w)
            && (w !in Wallets(records) && w in db.users ==> r.users[w] == db.users[w])
  {
    InsertParts(snap, db, now, random, records, faults);
    var rows := UserRows(records);
    UpsertLastWins(db.users, rows, w);
    LastValueIndex(rows, w);
    if w in Wallets(records) {
      var i :| 0 <= i < |records| && records[i].wallet == w;
      assert rows[i].0 == w;
    }
  }

  /** Students: a wallet gets the student row of its last record that has
      every student field; any other student row is kept. */
  lemma CommittedStudent(snap: Snapshot, db: Db, now: Time, random: nat, records: seq<Record>, faults: set<Stage>, w: Wallet)
    requires random < ULID_RANDOM_SPAN
    requires Insert(snap, db, now, random, records, faults).Ok?
    ensures var r := Insert(snap, db, now, random, records, faults).value;
            && (w in r.students <==> w in db.students || LastStudent(records, w).Some?)
            && (LastStudent(records, w).Some? ==> r.students[w] == LastStudent(records, w).value)
            && (LastStudent(records, w).None? && w in db.students ==> r.students[w] == db.students[w])
  {
    InsertParts(snap, db, now, random, records, faults);
    UpsertLastWins(db.students, StudentRows(records), w);
    StudentRowsLast(records, w);
  }

  /** Pix: a wallet and day gets the amount of the FIRST record reporting
      it (the chunks are popped from the back, and the last write wins);
      any other pix row is kept. */
  lemma CommittedPix(snap: Snapshot, db: Db, now: Time, random: nat, records: seq<Record>, faults: set<Stage>, k: PixKey)
    requires random < ULID_RANDOM_SPAN
    requires Insert(snap, db, now, random, records, faults).Ok?
    ensures var r := Insert(snap, db, now, random, records, faults).value;
            && (k in r.pix <==> k in db.pix || FirstDaily(records, k).Some?)
            && (FirstDaily(records, k).Some? ==> r.pix[k] == FirstDaily(records, k).value)
            && (FirstDaily(records, k).None? && k in db.pix ==> r.pix[k] == db.pix[k])
  {
    InsertParts(snap, db, now, random, records, faults);
    var pending := PendingPix(records);
    UpsertLastWins(db.pix, Flatten(Chunks(pending)), k);
    LastValueOfReverse(pending, k);
    PendingFirst(records, k);
  }

  /** Memberships: the new batch holds exactly the batch's wallets (plus
      nothing else, since its key is new), and no other batch changes. */
  lemma CommittedMembers(snap: Snapshot, db: Db, now: Time, random: nat, records: seq<Record>, faults: set<Stage>, m: Member)
    requires random < ULID_RANDOM_SPAN
    requires Insert(snap, db, now, random, records, faults).Ok?
    ensures var r := Insert(snap, db, now, random, records, faults).value;
            && (m.batch != NewBatchKey(snap, db, now, random) ==> (m in r.members <==> m in db.members))
            && (m.batch == NewBatchKey(snap, db, now, random) ==>
                  (m in r.members <==> m in db.members || m.wallet in Wallets(records)))
  {
    InsertParts(snap, db, now, random, records, faults);
    var key := NewBatchKey(snap, db, now, random);
    if m.batch == key && m.wallet in Wallets(records) {
      var i :| 0 <= i < |records| && records[i].wallet == m.wallet;
      assert m == Member(records[i].wallet, key);
    }
  }

  /** A committed insert keeps every clause of `Valid`: the uniqueness the
      schema enforces and the ownership that only `insert` maintains. */
  lemma InsertPreservesValid(snap: Snapshot, db: Db, now: Time, random: nat, records: seq<Record>, faults: set<Stage>)
    requires random < ULID_RANDOM_SPAN
    requires Valid(snap, db)
    requires Insert(snap, db, now, random, records, faults).Ok?
    ensures Valid(snap, Insert(snap, db, now, random, records, faults).value)
  {
    var r := Insert(snap, db, now, random, records, faults).value;
    var key := NewBatchKey(snap, db, now, random);
    InsertParts(snap, db, now, random, records, faults);
    UpsertUsersKeepsUnique(db.users, UserRows(records));
    forall w | w in r.students ensures w in r.users && r.students[w].userId == w {
      CommittedStudent(snap, db, now, random, records, faults, w);
      CommittedUser(snap, db, now, random, records, faults, w);
    }
    forall m | m in r.members ensures m.wallet in r.users {
      CommittedUser(snap, db, now, random, records, faults, m.wallet);
      CommittedMembers(snap, db, now, random, records, faults, m);
    }
    forall k | k in r.pix ensures k.wallet in r.users && exists m :: m in r.members && m.wallet == k.wallet {
      CommittedPix(snap, db, now, random, records, faults, k);
      CommittedUser(snap, db, now, random, records, faults, k.wallet);
      if k !in db.pix {
        CommittedMembers(snap, db, now, random, records, faults, Member(k.wallet, key));
        assert Member(k.wallet, key) in r.members;
      }
    }
    if snap == Api {
      forall m | m in r.members ensures m.batch in r.logs {
        CommittedMembers(snap, db, now, random, records, faults, m);
      }
      assert now !in db.logs.Values;
      forall i, j | i in r.logs && j in r.logs && r.logs[i] == r.logs[j] ensures i == j {
        if i != key && j != key {
          assert db.logs[i] == db.logs[j];
        }
      }
    }
  }

  /** The conditions under which an insert's batch is the newest one: a
      key greater than every stored batch (server, with at least one
      record) or a time later than every log row (api). */
  ghost predicate Newest(snap: Snapshot, db: Db, now: Time, random: nat, records: seq<Record>)
    requires random < ULID_RANDOM_SPAN
  {
    match snap
    case Server => records != [] && forall b :: b in BatchKeys(snap, db) ==> b < NewBatchKey(snap, db, now, random)
    case Api => forall k :: k in db.logs ==> db.logs[k] < now
  }

  /** No stored membership row uses the key of a newest batch. */
  lemma NewKeyUnused(snap: Snapshot, db: Db, now: Time, random: nat, records: seq<Record>)
    requires random < ULID_RANDOM_SPAN
    requires Valid(snap, db)
    requires Newest(snap, db, now, random, records)
    ensures forall m :: m in db.members ==> m.batch != NewBatchKey(snap, db, now, random)
  {
    if snap == Server {
      forall m | m in db.members ensures m.batch != NewBatchKey(snap, db, now, random) {
        assert m.batch in BatchKeys(snap, db);
      }
    }
  }

  lemma ServerLatest(db: Db, now: Time, random: nat, records: seq<Record>, faults: set<Stage>)
    requires random < ULID_RANDOM_SPAN
    requires Insert(Server, db, now, random, records, faults).Ok?
    requires Newest(Server, db, now, random, records)
    ensures LatestBatch(Server, Insert(Server, db, now, random, records, faults).value) == Some(NewBatchKey(Server, db, now, random))
  {
    var r := Insert(Server, db, now, random, records, faults).value;
    var key := NewBatchKey(Server, db, now, random);
    InsertParts(Server, db, now, random, records, faults);
    assert Member(records[0].wallet, key) in r.members;
    assert key in BatchKeys(Server, r);
    forall b | b in BatchKeys(Server, r) ensures b <= key {
      var m :| m in r.members && m.batch == b;
      if m in db.members {
        assert b in BatchKeys(Server, db);
      }
    }
  }

  lemma ApiLatest(db: Db, now: Time, random: nat, records: seq<Record>, faults: set<Stage>)
    requires random < ULID_RANDOM_SPAN
    requires Valid(Api, db)
    requires Insert(Api, db, now, random, records, faults).Ok?
    requires Newest(Api, db, now, random, records)
    ensures LatestBatch(Api, Insert(Api, db, now, random, records, faults).value) == Some(NewBatchKey(Api, db, now, random))
  {
    var r := Insert(Api, db, now, random, records, faults).value;
    var key := NewBatchKey(Api, db, now, random);
    InsertParts(Api, db, now, random, records, faults);
    assert r.logs == db.logs[key := now];
    var b := LatestBatch(Api, r).value;
    assert r.logs[b] >= r.logs[key];
  }

  /** A newest batch becomes the one the "latest" queries select. */
  lemma NewBatchIsLatest(snap: Snapshot, db: Db, now: Time, random: nat, records: seq<Record>, faults: set<Stage>)
    requires random < ULID_RANDOM_SPAN
    requires Valid(snap, db)
    requires Insert(snap, db, now, random, records, faults).Ok?
    requires Newest(snap, db, now, random, records)
    ensures LatestBatch(snap, Insert(snap, db, now, random, records, faults).value) == Some(NewBatchKey(snap, db, now, random))
  {
    if snap == Server {
      ServerLatest(db, now, random, records, faults);
    } else {
      ApiLatest(db, now, random, records, faults);
    }
  }

  /** After a newest batch, `get_last_updated_at` reports its time
      (truncated to the millisecond by the ULID on the server) and
      `active_users` reports exactly the batch's wallets. */
  lemma NewBatchQueries(snap: Snapshot, db: Db, now: Time, random: nat, records: seq<Record>, faults: set<Stage>)
    requires random < ULID_RANDOM_SPAN
    requires Valid(snap, db)
    requires Insert(snap, db, now, random, records, faults).Ok?
    requires Newest(snap, db, now, random, records)
    ensures var r := Insert(snap, db, now, random, records, faults).value;
            && LastUpdatedAt(snap, r) == Some(if snap == Server then UlidTime(UlidKey(now, random)) else now)
            && ActiveUsers(snap, r).Some?
            && Ids(ActiveUsers(snap, r).value) == Wallets(records)
  {
    var r := Insert(snap, db, now, random, records, faults).value;
    var key := NewBatchKey(snap, db, now, random);
    InsertParts(snap, db, now, random, records, faults);
    NewBatchIsLatest(snap, db, now, random, records, faults);
    NewKeyUnused(snap, db, now, random, records);
    var users := ActiveUsers(snap, r).value;
    forall w | w in Wallets(records) ensures w in Ids(users) {
      CommittedMembers(snap, db, now, random, records, faults, Member(w, key));
      CommittedUser(snap, db, now, random, records, faults, w);
      assert User(w, r.users[w]) in users;
    }
    forall w | w in Ids(users) ensures w in Wallets(records) {
      var u :| u in users && u.id == w;
      CommittedMembers(snap, db, now, random, records, faults, Member(w, key));
    }
  }

  /** An empty batch: the server writes nothing at all (so the batch is
      invisible to every later query), while the api still adds its log
      row, whose batch then has no members. */
  lemma EmptyBatch(snap: Snapshot, db: Db, now: Time, random: nat, faults: set<Stage>)
    requires random < ULID_RANDOM_SPAN
    ensures snap == Server ==> Insert(snap, db, now, random, [], faults) == Ok(db)
    ensures snap == Api ==>
              (Insert(snap, db, now, random, [], faults).Ok? <==> LogStage !in faults && now !in db.logs.Values)
    ensures snap == Api && Insert(snap, db, now, random, [], faults).Ok? ==>
              var r := Insert(snap, db, now, random, [], faults).value;
              BatchKeys(snap, r) == BatchKeys(snap, db) + {NewBatchKey(snap, db, now, random)}
              && r.members == db.members
  {
    var key := NewBatchKey(snap, db, now, random);
    assert UserRows([]) == [];
    assert PendingPix([]) == [];
    assert Chunks<(PixKey, U32)>([]) == [];
    assert NewMembers([], key) == {};
    assert UpsertChunks(db.pix, [], faults, 0) == Ok(db.pix);
    if snap == Server {
      var r := Insert(snap, db, now, random, [], faults);
      assert r.Ok?;
      assert r.value == Db(db.users, db.students, db.members, db.logs, db.pix);
    }
  }
}
