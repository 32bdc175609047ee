/** The profile query of both snapshots (server/src/usecase.rs:46-124,
    api/src/usecase.rs:41-119): a user's most recent pix rows, their total
    over the rolling window, its tier and the progress metrics derived
    from the tier bounds. */
module Profiles {

  import opened Basics
  import opened RecordDates
  import opened Records
  import opened Store
  import opened Extremes
  import opened PgnLevels

  /** The `LIMIT` of the profile query: the rolling window, in rows. */
  const WINDOW_ROWS: nat := 28

  // ---------------------------------------------------------------- the rows

  /** `ORDER BY date DESC LIMIT n`: the `n` latest dates of a set, latest
      first. */
  ghost function RecentDates(ds: set<Date>, n: nat): (r: seq<Date>)
    ensures |r| == if |ds| < n then |ds| else n
    ensures forall i :: 0 <= i < |r| ==> r[i] in ds
    ensures forall i, j :: 0 <= i < j < |r| ==> Before(r[j], r[i])
    ensures forall d, i :: d in ds && d !in r && 0 <= i < |r| ==> Before(d, r[i])
    decreases n
  {
    if n == 0 || ds == {} then []
    else
      var m := Latest(ds);
      var rest := RecentDates(ds - {m}, n - 1);
      var r := [m] + rest;
      assert forall i :: 0 < i < |r| ==> r[i] == rest[i - 1];
      forall d, i | d in ds && d !in r && 0 <= i < |r| ensures Before(d, r[i]) {
        if i > 0 {
          assert d in ds - {m} && d !in rest;
        }
      }
      r
  }

  /** The dates of a wallet's pix rows. */
  function PixDates(db: Db, w: Wallet): (ds: set<Date>)
    ensures forall d :: d in ds <==> PixKey(w, d) in db.pix
  {
    set k | k in db.pix && k.wallet == w :: k.date
  }

  /** The sum of a wallet's amounts on the given dates, unbounded. */
  function SumAmounts(db: Db, w: Wallet, dates: seq<Date>): nat
    requires forall i :: 0 <= i < |dates| ==> PixKey(w, dates[i]) in db.pix
    decreases |dates|
  {
    if dates == [] then 0 else db.pix[PixKey(w, dates[0])] + SumAmounts(db, w, dates[1..])
  }

  /** The rows the profile query returns for a wallet. */
  ghost function WindowDates(db: Db, w: Wallet): seq<Date> {
    RecentDates(PixDates(db, w), WINDOW_ROWS)
  }

  /** The window's total fits the `u32` that `.sum()` produces for every
      user with this pgrit id. */
  ghost predicate SumFits(db: Db, pgritId: string) {
    forall w :: w in db.users && db.users[w] == pgritId ==> SumAmounts(db, w, WindowDates(db, w)) <= U32_MAX
  }

  // ---------------------------------------------------------------- metrics

  /** An exact quotient standing in for the `f32` division. */
  datatype Ratio = Ratio(num: nat, den: nat)

  /** The tier and progress fields of `PgnInfo`. */
  datatype Metrics = Metrics(
    level: PgnLevel,
    onLevel: U32,
    levelLength: Option<U32>,
    progress: Option<Ratio>,
    target: Option<U32>,
    behindNext: Option<U32>)

  /** The metrics of a window total. Every subtraction is at a `U32`
      type, so none of them underflows. */
  function ComputeMetrics(lastMonth: U32): (m: Metrics)
    ensures m.level == From(lastMonth)
    ensures MinPix(m.level) + m.onLevel == lastMonth
    ensures m.level == GrandMaster <==> m.target.None?
    ensures m.target.None? <==> m.levelLength.None?
    ensures m.target.None? <==> m.progress.None?
    ensures m.target.None? <==> m.behindNext.None?
    ensures m.target.Some? ==>
              && m.target.value == MaxPix(m.level)
              && m.target.value == MinPix(Add(m.level, 1))
              && MinPix(m.level) + m.levelLength.value == m.target.value
              && lastMonth + m.behindNext.value == m.target.value
              && m.behindNext.value > 0
              && m.onLevel + m.behindNext.value == m.levelLength.value
              && m.progress.value == Ratio(m.onLevel, m.levelLength.value)
              && m.progress.value.num < m.progress.value.den
  {
    var level := From(lastMonth);
    var base := MinPix(level);
    var onLevel: U32 := lastMonth - base;
    if level == GrandMaster then Metrics(level, onLevel, None, None, None, None)
    else
      var t: U32 := MinPix(Add(level, 1));
      assert Add(level, 1) != Iron && Pred(Add(level, 1)) == level by {
        OrdInjective(Pred(Add(level, 1)), level);
      }
      var ll: U32 := t - base;
      var behind: U32 := t - lastMonth;
      Metrics(level, onLevel, Some(ll), Some(Ratio(onLevel, ll)), Some(t), Some(behind))
  }

  // ---------------------------------------------------------------- the profile

  datatype PgnInfo = PgnInfo(
    updatedAt: Time,
    daily: map<Date, U32>,
    lastMonth: U32,
    metrics: Metrics)

  datatype UserProfile = UserProfile(
    user: User,
    student: Option<Student>,
    createdAt: Time,
    pgn: PgnInfo)

  /** Whether some user with this pgrit id has a pix row. */
  ghost predicate HasRows(db: Db, pgritId: string) {
    exists w :: w in db.users && db.users[w] == pgritId && PixDates(db, w) != {}
  }

  /** A pix row guarantees a batch, so `get_last_updated_at(..).unwrap()`
      cannot panic in a valid store. */
  lemma RowsImplyBatch(snap: Snapshot, db: Db, w: Wallet)
    requires Valid(snap, db)
    requires PixDates(db, w) != {}
    ensures BatchKeys(snap, db) != {}
  {
    var d :| d in PixDates(db, w);
    var m :| m in db.members && m.wallet == w;
    assert m.batch in BatchKeys(snap, db);
  }

  /** The `daily` map of a profile: the amounts of the window's rows, at
      most `WINDOW_ROWS` of the wallet's dates, every kept date later than
      every dropped one. */
  ghost function WindowMap(db: Db, w: Wallet): (daily: map<Date, U32>)
    ensures daily.Keys <= PixDates(db, w)
    ensures |daily.Keys| == (if |PixDates(db, w)| < WINDOW_ROWS then |PixDates(db, w)| else WINDOW_ROWS)
    ensures forall d :: d in daily ==> daily[d] == db.pix[PixKey(w, d)]
    ensures forall d, e :: d in daily && e in PixDates(db, w) && e !in daily ==> Before(e, d)
  {
    var dates := WindowDates(db, w);
    var daily := map d | d in dates :: db.pix[PixKey(w, d)];
    DistinctCount(dates);
    assert daily.Keys == set d | d in dates;
    daily
  }

  /** `profile`: `None` when no user with this pgrit id has pix rows;
      otherwise the user, its student row, and the window's daily amounts,
      total, tier and metrics, stamped with the latest batch time. */
  ghost function Profile(snap: Snapshot, db: Db, now: Time, pgritId: string): (r: Option<UserProfile>)
    requires Valid(snap, db)
    requires SumFits(db, pgritId)
    ensures r.None? <==> !HasRows(db, pgritId)
    ensures r.Some? ==>
              var w := r.value.user.id;
              && w in db.users && db.users[w] == pgritId && r.value.user.pgritId == pgritId
              && r.value.student == (if w in db.students then Some(db.students[w]) else None)
              && r.value.createdAt == now
              && r.value.pgn.daily == WindowMap(db, w)
              && r.value.pgn.lastMonth == SumAmounts(db, w, WindowDates(db, w))
              && r.value.pgn.metrics == ComputeMetrics(r.value.pgn.lastMonth)
              && LastUpdatedAt(snap, db) == Some(r.value.pgn.updatedAt)
  {
    if !HasRows(db, pgritId) then None
    else
      var w :| w in db.users && db.users[w] == pgritId && PixDates(db, w) != {};
      RowsImplyBatch(snap, db, w);
      var total: U32 := SumAmounts(db, w, WindowDates(db, w));
      var student := if w in db.students then Some(db.students[w]) else None;
      var info := PgnInfo(LastUpdatedAt(snap, db).value, WindowMap(db, w), total, ComputeMetrics(total));
      Some(UserProfile(User(w, pgritId), student, now, info))
  }

  /** A user with at most `WINDOW_ROWS` pix rows has all of them in the
      profile; with more, exactly `WINDOW_ROWS` of them, the latest. */
  lemma WindowKeepsLatest(db: Db, w: Wallet)
    ensures |PixDates(db, w)| <= WINDOW_ROWS ==> WindowMap(db, w).Keys == PixDates(db, w)
    ensures |PixDates(db, w)| > WINDOW_ROWS ==> |WindowMap(db, w).Keys| == WINDOW_ROWS
  {
    var kept := WindowMap(db, w).Keys;
    var all := PixDates(db, w);
    if |all| <= WINDOW_ROWS {
      assert |all - kept| == |all| - |kept|;
    }
  }

  /** A strictly descending sequence has as many distinct elements as
      entries. */
  lemma {:induction false} DistinctCount(s: seq<Date>)
    requires forall i, j :: 0 <= i < j < |s| ==> Before(s[j], s[i])
    ensures |set d | d in s| == |s|
    decreases |s|
  {
    if s != [] {
      var tail := s[1..];
      assert forall i, j :: 0 <= i < j < |tail| ==> Before(tail[j], tail[i]) by {
        forall i, j | 0 <= i < j < |tail| ensures Before(tail[j], tail[i]) {
          assert tail[j] == s[j + 1] && tail[i] == s[i + 1];
        }
      }
      DistinctCount(tail);
      assert (set d | d in s) == {s[0]} + set d | d in tail;
      assert s[0] !in tail by {
        forall j | 0 <= j < |tail| ensures tail[j] != s[0] {
          assert tail[j] == s[j + 1];
          BeforeTotal(s[j + 1], s[0]);
        }
      }
    }
  }
}
