/**
 * The `reports` table of db/queries.py as an abstract store: a map from id to
 * row plus the next value of the `SERIAL` sequence. Every query function is a
 * pure function of the store; `now` stands for `CURRENT_TIMESTAMP`/`NOW()`,
 * as whole seconds.
 */
module Queries {
  import opened Wrappers
  import opened PyText
  import opened Ordering

  /** Text in the `status` column other than the three values the bot writes. */
  type OtherStatusText = t: string | t != "pending" && t != "in_progress" && t != "completed"

  /** The `status` column. It is free `TEXT`; the bot only ever writes the first
      three values, `Unrecognised` stands for anything else found there. */
  datatype Status = Pending | InProgress | Completed | Unrecognised(text: OtherStatusText)

  /** The text stored in the `status` column for a status. */
  function StatusName(st: Status): string {
    match st
    case Pending => "pending"
    case InProgress => "in_progress"
    case Completed => "completed"
    case Unrecognised(t) => t
  }

  /** Reading the `status` column back: every text is the name of exactly one status. */
  function StatusOf(t: string): (st: Status)
    ensures StatusName(st) == t
  {
    if t == "pending" then Pending
    else if t == "in_progress" then InProgress
    else if t == "completed" then Completed
    else Unrecognised(t)
  }

  /** Two statuses are equal exactly when their column texts are, so matching a
      `Status` is the SQL comparison `status = %s` on the text. */
  lemma StatusNameInjective(a: Status, b: Status)
    ensures a == b <==> StatusName(a) == StatusName(b)
  {
  }

  /** One row of `reports`; the nullable columns are options. */
  datatype Report = Report(
    id: int,
    userId: int,
    userName: string,
    reportType: string,
    reportText: string,
    status: Status,
    responsibleId: Option<int>,
    responsibleName: Option<string>,
    adminResponse: Option<string>,
    createdAt: int,
    takenAt: Option<int>,
    completedAt: Option<int>)

  /** The table and its id sequence. `nextId` is the value `nextval` hands out next. */
  datatype Store = Store(rows: map<int, Report>, nextId: int)

  /** A freshly created table: no rows, and `SERIAL` starts at 1. */
  const EmptyStore: Store := Store(map[], 1)

  /** The primary key is the row's own id, and every id was issued by the sequence. */
  ghost predicate Valid(s: Store) {
    && s.nextId >= 1
    && forall k :: k in s.rows ==> s.rows[k].id == k && 1 <= k < s.nextId
  }

  /** `x` is, field for field, a row of the table. */
  predicate Stored(s: Store, x: Report) {
    x.id in s.rows && s.rows[x.id] == x
  }

  /** Key `k` is absent from both maps or maps to the same row in both. */
  predicate SameAt(a: map<int, Report>, b: map<int, Report>, k: int) {
    (k in a <==> k in b) && (k in a ==> a[k] == b[k])
  }

  /** Every row other than `id` is exactly as it was. */
  ghost predicate OthersUnchanged(s: Store, t: Store, id: int) {
    forall k :: k != id ==> SameAt(s.rows, t.rows, k)
  }

  /** The column defaults of a newly inserted row: pending, nobody responsible,
      no response, not taken, not completed. */
  predicate Unclaimed(x: Report) {
    && x.status == Pending
    && x.responsibleId.None? && x.responsibleName.None?
    && x.adminResponse.None?
    && x.takenAt.None? && x.completedAt.None?
  }

  // ---------------------------------------------------------------- writes

  /** Outcome of the `INSERT`: the new id, or the `NOT NULL` violation raised when
      `report_type` or `report_text` is `None`. The sequence value is consumed
      either way, so both carry the resulting store. */
  datatype SaveResult = Saved(store: Store, id: int) | NotNullViolation(store: Store)

  /** `save_report` */
  function SaveReport(s: Store, userId: int, userName: string,
                      reportType: Option<string>, reportText: Option<string>, now: int): (r: SaveResult)
    requires Valid(s)
    ensures Valid(r.store)
    ensures r.store.nextId == s.nextId + 1
    ensures r.Saved? <==> reportType.Some? && reportText.Some?
    ensures r.NotNullViolation? ==> r.store.rows == s.rows
    ensures r.Saved? ==>
      && r.id !in s.rows
      && (forall k :: k in s.rows ==> k < r.id)
      && r.id in r.store.rows
      && OthersUnchanged(s, r.store, r.id)
      && r.store.rows[r.id].id == r.id
      && r.store.rows[r.id].userId == userId
      && r.store.rows[r.id].userName == userName
      && Some(r.store.rows[r.id].reportType) == reportType
      && Some(r.store.rows[r.id].reportText) == reportText
      && r.store.rows[r.id].createdAt == now
      && Unclaimed(r.store.rows[r.id])
  {
    var id := s.nextId;
    var t := Store(s.rows, s.nextId + 1);
    if reportType.None? || reportText.None? then
      NotNullViolation(t)
    else
      var row := Report(id, userId, userName, reportType.value, reportText.value,
                        Pending, None, None, None, now, None, None);
      Saved(t.(rows := s.rows[id := row]), id)
  }

  /** `take_report`: an unconditional `UPDATE … WHERE id = report_id`. */
  function TakeReport(s: Store, id: int, workerId: int, workerName: string, now: int): (t: Store)
    requires Valid(s)
    ensures Valid(t)
    ensures t.nextId == s.nextId
    ensures OthersUnchanged(s, t, id)
    ensures id !in s.rows ==> t == s
    ensures id in s.rows ==>
      && id in t.rows
      && t.rows[id].status == InProgress
      && t.rows[id].responsibleId == Some(workerId)
      && t.rows[id].responsibleName == Some(workerName)
      && t.rows[id].takenAt == Some(now)
      && t.rows[id] == s.rows[id].(status := t.rows[id].status,
                                   responsibleId := t.rows[id].responsibleId,
                                   responsibleName := t.rows[id].responsibleName,
                                   takenAt := t.rows[id].takenAt)
  {
    if id !in s.rows then s
    else
      var row := s.rows[id].(status := InProgress, responsibleId := Some(workerId),
                             responsibleName := Some(workerName), takenAt := Some(now));
      s.(rows := s.rows[id := row])
  }

  /** `complete_report`: an unconditional `UPDATE … WHERE id = report_id`. */
  function CompleteReport(s: Store, id: int, response: string, now: int): (t: Store)
    requires Valid(s)
    ensures Valid(t)
    ensures t.nextId == s.nextId
    ensures OthersUnchanged(s, t, id)
    ensures id !in s.rows ==> t == s
    ensures id in s.rows ==>
      && id in t.rows
      && t.rows[id].status == Completed
      && t.rows[id].adminResponse == Some(response)
      && t.rows[id].completedAt == Some(now)
      && t.rows[id] == s.rows[id].(status := t.rows[id].status,
                                   adminResponse := t.rows[id].adminResponse,
                                   completedAt := t.rows[id].completedAt)
  {
    if id !in s.rows then s
    else
      var row := s.rows[id].(status := Completed, adminResponse := Some(response),
                             completedAt := Some(now));
      s.(rows := s.rows[id := row])
  }

  /** `delete_report`: removes the row and reports whether one was removed; the
      sequence is not rewound. */
  function DeleteReport(s: Store, id: int): (r: (Store, bool))
    requires Valid(s)
    ensures Valid(r.0)
    ensures r.1 <==> id in s.rows
    ensures id !in r.0.rows
    ensures OthersUnchanged(s, r.0, id)
    ensures r.0.nextId == s.nextId
  {
    (s.(rows := s.rows - {id}), id in s.rows)
  }

  // ---------------------------------------------------------------- reads

  /** `get_report` */
  function GetReport(s: Store, id: int): (r: Option<Report>)
    requires Valid(s)
    ensures r.Some? <==> id in s.rows
    ensures r.Some? ==> Stored(s, r.value) && r.value.id == id
  {
    if id in s.rows then Some(s.rows[id]) else None
  }

  /** The rows with ids `lo` and up, in id order; each stored row appears once. */
  function RowsFrom(s: Store, lo: int): (r: seq<Report>)
    requires Valid(s)
    ensures forall x :: multiset(r)[x] == if Stored(s, x) && lo <= x.id then 1 else 0
    decreases s.nextId - lo
  {
    if lo >= s.nextId then []
    else (if lo in s.rows then [s.rows[lo]] else []) + RowsFrom(s, lo + 1)
  }

  /** Every row of the table once: the unordered result of `SELECT *`. */
  function AllRows(s: Store): (r: seq<Report>)
    requires Valid(s)
    ensures forall x :: multiset(r)[x] == if Stored(s, x) then 1 else 0
  {
    RowsFrom(s, 1)
  }

  function NewestKey(x: Report): int { -x.createdAt }

  function OldestKey(x: Report): int { x.createdAt }

  /** `ORDER BY created_at DESC` */
  ghost predicate NewestFirst(r: seq<Report>) {
    forall i, j :: 0 <= i < j < |r| ==> r[i].createdAt >= r[j].createdAt
  }

  /** `ORDER BY created_at ASC` */
  ghost predicate OldestFirst(r: seq<Report>) {
    forall i, j :: 0 <= i < j < |r| ==> r[i].createdAt <= r[j].createdAt
  }

  /** `SELECT * … WHERE p ORDER BY created_at DESC`: every matching row exactly
      once, nothing else. Rows with equal `created_at` may come in any order. */
  function SelectNewestFirst(s: Store, p: Report -> bool): (r: seq<Report>)
    requires Valid(s)
    ensures forall x :: multiset(r)[x] == if Stored(s, x) && p(x) then 1 else 0
    ensures NewestFirst(r)
  {
    var r := SortBy(Filter(AllRows(s), p), NewestKey);
    assert forall i, j :: 0 <= i < j < |r| ==> NewestKey(r[i]) <= NewestKey(r[j]);
    r
  }

  /** The newest `n` rows matching `p` (`… ORDER BY created_at DESC LIMIT n`,
      or a Python slice `[:n]` of that listing). */
  function NewestMatching(s: Store, p: Report -> bool, n: nat): (r: seq<Report>)
    requires Valid(s)
    ensures forall x :: multiset(r)[x] <= if Stored(s, x) && p(x) then 1 else 0
    ensures forall x :: x in r ==> Stored(s, x) && p(x)
    ensures NewestFirst(r)
    ensures |r| == if n < |SelectNewestFirst(s, p)| then n else |SelectNewestFirst(s, p)|
    ensures |r| < n ==> forall y :: Stored(s, y) && p(y) ==> y in r
    ensures forall x, y :: x in r && Stored(s, y) && p(y) && y !in r ==> y.createdAt <= x.createdAt
  {
    var all := SelectNewestFirst(s, p);
    var r := Take(all, n);
    forall x ensures multiset(r)[x] <= if Stored(s, x) && p(x) then 1 else 0 {
      TakeCount(all, n, x);
    }
    NewestPrefix(all, n);
    r
  }

  /** A prefix of a newest-first listing is newest-first, and whatever it leaves
      out is no newer than anything it keeps. */
  lemma NewestPrefix(all: seq<Report>, n: nat)
    requires NewestFirst(all)
    ensures NewestFirst(Take(all, n))
    ensures |Take(all, n)| < n ==> Take(all, n) == all
    ensures forall x, y :: x in Take(all, n) && y in all && y !in Take(all, n) ==> y.createdAt <= x.createdAt
  {
    assert forall i, j :: 0 <= i < j < |all| ==> NewestKey(all[i]) <= NewestKey(all[j]);
    forall y | y in all && y !in Take(all, n)
      ensures forall x :: x in Take(all, n) ==> y.createdAt <= x.createdAt
    {
      PrefixKeepsSmallest(all, NewestKey, n, y);
    }
  }

  /** A sequence in which no row occurs twice has no equal entries. */
  lemma NoRepeats(xs: seq<Report>)
    requires forall x :: multiset(xs)[x] <= 1
    ensures forall i, j :: 0 <= i < j < |xs| ==> xs[i] != xs[j]
  {
    forall i, j | 0 <= i < j < |xs| ensures xs[i] != xs[j] {
      assert xs == xs[..i] + [xs[i]] + xs[i + 1..j] + [xs[j]] + xs[j + 1..];
      assert multiset(xs)[xs[i]] >= 1 + (if xs[j] == xs[i] then 1 else 0);
    }
  }

  /** `get_user_reports` */
  function GetUserReports(s: Store, userId: int): (r: seq<Report>)
    requires Valid(s)
    ensures forall x :: multiset(r)[x] == if Stored(s, x) && x.userId == userId then 1 else 0
    ensures NewestFirst(r)
  {
    SelectNewestFirst(s, (x: Report) => x.userId == userId)
  }

  /** `get_reports_by_status` */
  function GetReportsByStatus(s: Store, status: Status): (r: seq<Report>)
    requires Valid(s)
    ensures forall x :: multiset(r)[x] == if Stored(s, x) && x.status == status then 1 else 0
    ensures NewestFirst(r)
  {
    SelectNewestFirst(s, HasStatus(status))
  }

  function HasStatus(status: Status): Report -> bool {
    (x: Report) => x.status == status
  }

  /** `get_worker_reports`: `responsible_user_id = worker_id` never holds for `NULL`. */
  function GetWorkerReports(s: Store, workerId: int): (r: seq<Report>)
    requires Valid(s)
    ensures forall x :: multiset(r)[x] == if Stored(s, x) && x.responsibleId == Some(workerId) then 1 else 0
    ensures NewestFirst(r)
  {
    SelectNewestFirst(s, (x: Report) => x.responsibleId == Some(workerId))
  }

  /** `get_all_reports(limit)`: the `limit` newest rows. */
  function GetAllReports(s: Store, limit: nat): (r: seq<Report>)
    requires Valid(s)
    ensures |r| == if limit < |s.rows| then limit else |s.rows|
    ensures forall x :: multiset(r)[x] <= if Stored(s, x) then 1 else 0
    ensures NewestFirst(r)
    ensures forall x, y :: x in r && Stored(s, y) && y !in r ==> y.createdAt <= x.createdAt
  {
    var p := (x: Report) => true;
    SelectCount(s, p);
    NewestMatching(s, p, limit)
  }

  /** Ids from `lo` up that are keys of the table. */
  ghost function KeysFrom(s: Store, lo: int): set<int> {
    set k | k in s.rows && lo <= k
  }

  lemma {:induction false} RowsFromLength(s: Store, lo: int)
    requires Valid(s)
    ensures |RowsFrom(s, lo)| == |KeysFrom(s, lo)|
    decreases s.nextId - lo
  {
    if lo >= s.nextId {
      assert KeysFrom(s, lo) == {};
    } else {
      RowsFromLength(s, lo + 1);
      KeysFromStep(s, lo);
      assert |RowsFrom(s, lo)| == (if lo in s.rows then 1 else 0) + |RowsFrom(s, lo + 1)|;
    }
  }

  lemma KeysFromStep(s: Store, lo: int)
    ensures |KeysFrom(s, lo)| == (if lo in s.rows then 1 else 0) + |KeysFrom(s, lo + 1)|
  {
    var rest := KeysFrom(s, lo + 1);
    if lo in s.rows {
      assert KeysFrom(s, lo) == {lo} + rest;
      assert lo !in rest;
    } else {
      assert KeysFrom(s, lo) == rest;
    }
  }

  /** Selecting with a predicate every row satisfies returns as many rows as the table has. */
  lemma SelectCount(s: Store, p: Report -> bool)
    requires Valid(s)
    requires forall x :: p(x)
    ensures |SelectNewestFirst(s, p)| == |s.rows|
  {
    AllRowsLength(s);
    var all := AllRows(s);
    var r := SelectNewestFirst(s, p);
    assert multiset(r) == multiset(all) by {
      forall x ensures multiset(r)[x] == multiset(all)[x] {}
    }
    assert |r| == |multiset(r)| == |multiset(all)| == |all|;
  }

  /** The figures `get_report_stats` returns. */
  datatype Stats = Stats(total: nat, pending: nat, inProgress: nat, completed: nat)

  /** `get_report_stats`: `COUNT(*)` and one `COUNT(CASE …)` per status. */
  function GetReportStats(s: Store): (r: Stats)
    requires Valid(s)
    ensures r.total == |s.rows|
    ensures r.pending == |GetReportsByStatus(s, Pending)|
    ensures r.inProgress == |GetReportsByStatus(s, InProgress)|
    ensures r.completed == |GetReportsByStatus(s, Completed)|
  {
    SelectCount(s, (x: Report) => true);
    Stats(|SelectNewestFirst(s, (x: Report) => true)|,
          |GetReportsByStatus(s, Pending)|,
          |GetReportsByStatus(s, InProgress)|,
          |GetReportsByStatus(s, Completed)|)
  }

  /** One of the three statuses the bot writes. */
  predicate Recognised(st: Status) {
    st == Pending || st == InProgress || st == Completed
  }

  /** When every row carries one of the three statuses the bot writes, the three
      per-status counts of `get_report_stats` add up to its total. */
  lemma StatsAddUp(s: Store)
    requires Valid(s)
    requires forall k :: k in s.rows ==> Recognised(s.rows[k].status)
    ensures GetReportStats(s).pending + GetReportStats(s).inProgress + GetReportStats(s).completed
            == GetReportStats(s).total
  {
    var all := AllRows(s);
    forall x | x in all ensures Recognised(x.status) {
      assert multiset(all)[x] > 0;
    }
    var st := GetReportStats(s);
    assert st.pending == |Filter(all, HasStatus(Pending))| by {
      FilterLength(all, HasStatus(Pending), NewestKey);
    }
    assert st.inProgress == |Filter(all, HasStatus(InProgress))| by {
      FilterLength(all, HasStatus(InProgress), NewestKey);
    }
    assert st.completed == |Filter(all, HasStatus(Completed))| by {
      FilterLength(all, HasStatus(Completed), NewestKey);
    }
    StatusPartition(all);
    AllRowsLength(s);
  }

  /** The table has as many rows as `SELECT *` returns. */
  lemma AllRowsLength(s: Store)
    requires Valid(s)
    ensures |AllRows(s)| == |s.rows|
  {
    RowsFromLength(s, 1);
    assert KeysFrom(s, 1) == s.rows.Keys;
  }

  /** Sorting the filtered rows does not change how many there are. */
  lemma FilterLength(xs: seq<Report>, p: Report -> bool, key: Report -> int)
    ensures |SortBy(Filter(xs, p), key)| == |Filter(xs, p)|
  {
    var f := Filter(xs, p);
    assert |SortBy(f, key)| == |multiset(SortBy(f, key))| == |multiset(f)| == |f|;
  }

  /** A sequence of rows with recognised statuses splits into its three status classes. */
  lemma {:induction false} StatusPartition(xs: seq<Report>)
    requires forall x :: x in xs ==> Recognised(x.status)
    ensures |Filter(xs, HasStatus(Pending))| + |Filter(xs, HasStatus(InProgress))|
            + |Filter(xs, HasStatus(Completed))| == |xs|
  {
    if |xs| > 0 {
      var x, tail := xs[0], xs[1..];
      assert forall y :: y in tail ==> y in xs;
      StatusPartition(tail);
      assert x in xs;
      assert |Filter(xs, HasStatus(Pending))| == |Filter(tail, HasStatus(Pending))| + (if x.status == Pending then 1 else 0);
      assert |Filter(xs, HasStatus(InProgress))| == |Filter(tail, HasStatus(InProgress))| + (if x.status == InProgress then 1 else 0);
      assert |Filter(xs, HasStatus(Completed))| == |Filter(tail, HasStatus(Completed))| + (if x.status == Completed then 1 else 0);
    }
  }

  /** `search_reports`: text, user name or type contains the query, ignoring case;
      the 50 newest such rows. */
  function SearchReports(s: Store, query: string): (r: seq<Report>)
    requires Valid(s)
    requires WildcardFree(query)
    ensures |r| <= SearchLimit
    ensures forall x :: multiset(r)[x] <= if Stored(s, x) then 1 else 0
    ensures forall x :: x in r ==> SearchMatches(x, query)
    ensures NewestFirst(r)
    ensures |r| < SearchLimit ==> forall y :: Stored(s, y) && SearchMatches(y, query) ==> y in r
    ensures forall x, y :: x in r && Stored(s, y) && SearchMatches(y, query) && y !in r ==> y.createdAt <= x.createdAt
  {
    NewestMatching(s, (x: Report) => SearchMatches(x, query), SearchLimit)
  }

  const SearchLimit: nat := 50

  /** The `WHERE` clause of `search_reports`. */
  predicate SearchMatches(x: Report, query: string) {
    ILikeContains(x.reportText, query) || ILikeContains(x.userName, query) || ILikeContains(x.reportType, query)
  }

  /** The `WHERE` clause of `get_old_pending_reports`: pending and created strictly
      before `now - hours`. */
  predicate OldPending(x: Report, hours: int, now: int) {
    x.status == Pending && x.createdAt < now - hours * 3600
  }

  /** `get_old_pending_reports(hours)`, oldest first. */
  function GetOldPendingReports(s: Store, hours: int, now: int): (r: seq<Report>)
    requires Valid(s)
    ensures forall x :: multiset(r)[x] == if Stored(s, x) && OldPending(x, hours, now) then 1 else 0
    ensures OldestFirst(r)
  {
    var r := SortBy(Filter(AllRows(s), (x: Report) => OldPending(x, hours, now)), OldestKey);
    assert forall i, j :: 0 <= i < j < |r| ==> OldestKey(r[i]) <= OldestKey(r[j]);
    r
  }
}
