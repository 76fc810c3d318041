/**
 * scheduler.py: one iteration of `check_pending_reports`. The in-memory
 * `reminded_reports` set is passed in and returned; the reminders actually
 * sent are the result. The 30-minute and 5-second sleeps are not modelled.
 */
module Scheduler {
  import opened Wrappers
  import opened Ordering
  import opened Queries
  import opened Outbox

  /** `get_old_pending_reports(hours=1)` */
  const ThresholdHours: int := 1

  /** The set is emptied once it holds more than this many ids. */
  const ClearAbove: nat := 100

  const SecondsPerDay: int := 86400

  /** Hours and minutes shown in a reminder for a report `delta` seconds old.
      `timedelta.seconds` is the part of the difference below one day (always in
      0..86399, also for a negative difference), so whole days are dropped. */
  function ElapsedParts(delta: int): (hm: (int, int))
    ensures 0 <= hm.0 <= 23 && 0 <= hm.1 <= 59
    ensures 0 <= (delta - hm.0 * 3600 - hm.1 * 60) % SecondsPerDay < 60
  {
    var secs := delta % SecondsPerDay;
    var h := secs / 3600;
    var m := (secs % 3600) / 60;
    assert secs == h * 3600 + m * 60 + secs % 60;
    assert delta - h * 3600 - m * 60 == (delta / SecondsPerDay) * SecondsPerDay + secs % 60;
    ModOfMultiplePlus(delta / SecondsPerDay, secs % 60);
    (h, m)
  }

  lemma ModOfMultiplePlus(q: int, r: int)
    requires 0 <= r < SecondsPerDay
    ensures (q * SecondsPerDay + r) % SecondsPerDay == r
  {
  }

  /** A difference under one day is shown exactly, to the minute. */
  lemma ElapsedWithinDay(delta: int)
    requires 0 <= delta < SecondsPerDay
    ensures ElapsedParts(delta).0 * 3600 + ElapsedParts(delta).1 * 60 <= delta
            < ElapsedParts(delta).0 * 3600 + ElapsedParts(delta).1 * 60 + 60
  {
  }

  /** Adding whole days to the age of a report does not change the reminder. */
  lemma {:induction false} ElapsedDropsDays(delta: int, days: nat)
    ensures ElapsedParts(delta + days * SecondsPerDay) == ElapsedParts(delta)
  {
    ModOfMultiplePlus(days + delta / SecondsPerDay, delta % SecondsPerDay);
    assert delta + days * SecondsPerDay
        == (days + delta / SecondsPerDay) * SecondsPerDay + delta % SecondsPerDay;
  }

  /** The reminder posted to the administrators' group for a stale report. */
  function ReminderFor(x: Report, now: int): (n: Notice)
    ensures n.to == AdminGroup && n.reportId == x.id && n.kind.Reminder?
    ensures 0 <= n.kind.hours <= 23 && 0 <= n.kind.minutes <= 59
    ensures 0 <= (now - x.createdAt - n.kind.hours * 3600 - n.kind.minutes * 60) % SecondsPerDay < 60
  {
    var hm := ElapsedParts(now - x.createdAt);
    Notice(AdminGroup, Reminder(hm.0, hm.1), x.id)
  }

  function Reminders(xs: seq<Report>, now: int): (r: seq<Notice>)
    ensures |r| == |xs|
    ensures forall i :: 0 <= i < |xs| ==> r[i] == ReminderFor(xs[i], now)
  {
    seq(|xs|, i requires 0 <= i < |xs| => ReminderFor(xs[i], now))
  }

  /** Ids of the reports a sequence of notices is about. */
  function SentIds(sent: seq<Notice>): set<int>
    decreases |sent|
  {
    if |sent| == 0 then {} else {sent[0].reportId} + SentIds(sent[1..])
  }

  lemma {:induction false} SentIdsMember(sent: seq<Notice>, k: int)
    ensures k in SentIds(sent) <==> exists i :: 0 <= i < |sent| && sent[i].reportId == k
    decreases |sent|
  {
    if |sent| > 0 {
      SentIdsMember(sent[1..], k);
      if exists i :: 0 <= i < |sent[1..]| && sent[1..][i].reportId == k {
        var i :| 0 <= i < |sent[1..]| && sent[1..][i].reportId == k;
        assert sent[i + 1].reportId == k;
      }
      if exists i :: 0 <= i < |sent| && sent[i].reportId == k {
        var i :| 0 <= i < |sent| && sent[i].reportId == k;
        if i > 0 {
          assert sent[1..][i - 1].reportId == k;
        }
      }
    }
  }

  lemma {:induction false} SentIdsAppend(a: seq<Notice>, b: seq<Notice>)
    ensures SentIds(a + b) == SentIds(a) + SentIds(b)
    decreases |a|
  {
    if |a| > 0 {
      assert (a + b)[1..] == a[1..] + b;
      SentIdsAppend(a[1..], b);
    } else {
      assert a + b == b;
    }
  }

  /** No two notices are about the same report. */
  ghost predicate DistinctIds(sent: seq<Notice>) {
    forall i, j :: 0 <= i < j < |sent| ==> sent[i].reportId != sent[j].reportId
  }

  /** What the `for` loop leaves behind: the reminders sent, the set as it stands
      afterwards, and whether a send raised and ended the loop early. */
  datatype Pass = Pass(sent: seq<Notice>, marked: set<int>, failed: bool)

  /** The `for` loop over the stale reports: skip an id already in the set, else
      send its reminder and only then add the id. The first send that raises ends
      the loop; `delivered` is how many sends succeed. */
  function RemindEach(stale: seq<Report>, reminded: set<int>, now: int, delivered: nat): (r: Pass)
    ensures r.marked == reminded + SentIds(r.sent)
    ensures forall i :: 0 <= i < |r.sent| ==> r.sent[i].reportId !in reminded
    ensures DistinctIds(r.sent)
    ensures |r.sent| <= delivered
    ensures r.failed ==> |r.sent| == delivered
    ensures !r.failed ==> forall x :: x in stale ==> x.id in r.marked
    ensures forall n :: n in r.sent ==> n.to == AdminGroup && n.kind.Reminder?
    decreases |stale|
  {
    if |stale| == 0 then Pass([], reminded, false)
    else
      var x := stale[0];
      if x.id in reminded then
        RemindEach(stale[1..], reminded, now, delivered)
      else if delivered == 0 then
        Pass([], reminded, true)
      else
        var rest := RemindEach(stale[1..], reminded + {x.id}, now, delivered - 1);
        var sent := [ReminderFor(x, now)] + rest.sent;
        assert sent[1..] == rest.sent;
        forall i | 0 <= i < |rest.sent| ensures rest.sent[i].reportId != x.id {
          assert rest.sent[i].reportId !in reminded + {x.id};
        }
        Pass(sent, rest.marked, rest.failed)
  }

  /** Ids of a sequence of reports are pairwise different (as `SELECT` returns them). */
  ghost predicate DistinctReports(xs: seq<Report>) {
    forall i, j :: 0 <= i < j < |xs| ==> xs[i].id != xs[j].id
  }

  lemma DistinctTail(xs: seq<Report>)
    requires |xs| > 0 && DistinctReports(xs)
    ensures DistinctReports(xs[1..])
  {
    forall i, j | 0 <= i < j < |xs| - 1 ensures xs[1..][i].id != xs[1..][j].id {
      assert xs[1..][i] == xs[i + 1] && xs[1..][j] == xs[j + 1];
    }
  }

  /** Reference definition of the loop's plan: the reports of the query whose id
      is not yet in the set, in query order. */
  function Unreminded(stale: seq<Report>, reminded: set<int>): seq<Report>
    decreases |stale|
  {
    if |stale| == 0 then []
    else if stale[0].id in reminded then Unreminded(stale[1..], reminded)
    else [stale[0]] + Unreminded(stale[1..], reminded)
  }

  lemma {:induction false} UnremindedMember(stale: seq<Report>, reminded: set<int>, x: Report)
    ensures x in Unreminded(stale, reminded) <==> x in stale && x.id !in reminded
    decreases |stale|
  {
    if |stale| > 0 {
      UnremindedMember(stale[1..], reminded, x);
      assert x in stale <==> x == stale[0] || x in stale[1..];
    }
  }

  /** Adding an id that no report of the query carries does not change the plan. */
  lemma {:induction false} UnremindedIgnores(stale: seq<Report>, reminded: set<int>, k: int)
    requires forall i :: 0 <= i < |stale| ==> stale[i].id != k
    ensures Unreminded(stale, reminded + {k}) == Unreminded(stale, reminded)
    decreases |stale|
  {
    if |stale| > 0 {
      assert stale[0].id != k;
      UnremindedIgnores(stale[1..], reminded, k);
    }
  }

  /** Over reports with distinct ids the loop reminds exactly the planned reports,
      in query order; what goes out is the part of the plan sent before the first
      failure, and the pass fails exactly when the plan is longer than that. */
  lemma {:induction false} RemindEachIsPlan(stale: seq<Report>, reminded: set<int>, now: int, delivered: nat)
    requires DistinctReports(stale)
    ensures var planned := Reminders(Unreminded(stale, reminded), now);
      && RemindEach(stale, reminded, now, delivered).sent == Deliver(planned, delivered)
      && (RemindEach(stale, reminded, now, delivered).failed <==> delivered < |planned|)
    decreases |stale|
  {
    if |stale| > 0 {
      var x, tail := stale[0], stale[1..];
      DistinctTail(stale);
      if x.id in reminded {
        RemindEachIsPlan(tail, reminded, now, delivered);
        assert RemindEach(stale, reminded, now, delivered) == RemindEach(tail, reminded, now, delivered);
        assert Unreminded(stale, reminded) == Unreminded(tail, reminded);
      } else if delivered > 0 {
        RemindEachIsPlan(tail, reminded + {x.id}, now, delivered - 1);
        SendStep(stale, reminded, now, delivered);
      } else {
        assert RemindEach(stale, reminded, now, delivered) == Pass([], reminded, true);
        assert |Unreminded(stale, reminded)| > 0;
      }
    }
  }

  /** The step of `RemindEachIsPlan` where the first report is reminded. */
  lemma SendStep(stale: seq<Report>, reminded: set<int>, now: int, delivered: nat)
    requires |stale| > 0 && DistinctReports(stale) && stale[0].id !in reminded && delivered > 0
    requires var planned := Reminders(Unreminded(stale[1..], reminded + {stale[0].id}), now);
      && RemindEach(stale[1..], reminded + {stale[0].id}, now, delivered - 1).sent
         == Deliver(planned, delivered - 1)
      && (RemindEach(stale[1..], reminded + {stale[0].id}, now, delivered - 1).failed
          <==> delivered - 1 < |planned|)
    ensures var planned := Reminders(Unreminded(stale, reminded), now);
      && RemindEach(stale, reminded, now, delivered).sent == Deliver(planned, delivered)
      && (RemindEach(stale, reminded, now, delivered).failed <==> delivered < |planned|)
  {
    var x, tail := stale[0], stale[1..];
    PlanCons(stale, reminded, now);
    var rest := RemindEach(tail, reminded + {x.id}, now, delivered - 1);
    assert RemindEach(stale, reminded, now, delivered) == Pass([ReminderFor(x, now)] + rest.sent, rest.marked, rest.failed);
    DeliverCons(ReminderFor(x, now), Reminders(Unreminded(tail, reminded + {x.id}), now), delivered);
  }

  /** A report not yet reminded heads the plan, and the rest of the plan is the
      same once its id is in the set. */
  lemma PlanCons(stale: seq<Report>, reminded: set<int>, now: int)
    requires |stale| > 0 && DistinctReports(stale) && stale[0].id !in reminded
    ensures Reminders(Unreminded(stale, reminded), now)
         == [ReminderFor(stale[0], now)] + Reminders(Unreminded(stale[1..], reminded + {stale[0].id}), now)
  {
    var x, tail := stale[0], stale[1..];
    forall i | 0 <= i < |tail| ensures tail[i].id != x.id {
      assert tail[i] == stale[i + 1];
    }
    UnremindedIgnores(tail, reminded, x.id);
    var f := Unreminded(tail, reminded);
    assert Unreminded(stale, reminded) == [x] + f;
    assert Reminders([x] + f, now) == [ReminderFor(x, now)] + Reminders(f, now);
  }

  /** The state after one sweep: reminders sent, the set afterwards, whether the
      set was cleared, and whether the sweep ended in the `except` branch. */
  datatype SweepResult = SweepResult(sent: seq<Notice>, reminded: set<int>, cleared: bool, raised: bool)

  /** One iteration of the `while True` loop. `query` is what
      `get_old_pending_reports` returned, `None` when it raised. The size check
      sits inside the `try`, after the loop, so a sweep that raised never clears. */
  function Sweep(query: Option<seq<Report>>, reminded: set<int>, now: int, delivered: nat): (r: SweepResult)
    ensures query.None? ==> r.sent == [] && r.reminded == reminded && r.raised
    ensures r.cleared ==> r.reminded == {}
    ensures !r.cleared ==> r.reminded == reminded + SentIds(r.sent)
    ensures r.cleared <==> !r.raised && |reminded + SentIds(r.sent)| > ClearAbove
    ensures forall i :: 0 <= i < |r.sent| ==> r.sent[i].reportId !in reminded
    ensures DistinctIds(r.sent)
    ensures query.Some? && !r.raised ==> forall x :: x in query.value ==> x.id in reminded + SentIds(r.sent)
  {
    match query
    case None => SweepResult([], reminded, false, true)
    case Some(stale) =>
      var pass := RemindEach(stale, reminded, now, delivered);
      if pass.failed then SweepResult(pass.sent, pass.marked, false, true)
      else if |pass.marked| > ClearAbove then SweepResult(pass.sent, {}, true, false)
      else SweepResult(pass.sent, pass.marked, false, false)
  }

  /** A sweep against the store: the stale reports are those pending for more than
      an hour; every reminder is about one of them that had not been reminded. */
  function SweepStore(s: Store, reminded: set<int>, now: int, delivered: nat): (r: SweepResult)
    requires Valid(s)
    ensures forall i :: 0 <= i < |r.sent| ==>
      && r.sent[i].reportId in s.rows
      && s.rows[r.sent[i].reportId].status == Pending
      && s.rows[r.sent[i].reportId].createdAt < now - ThresholdHours * 3600
      && r.sent[i].reportId !in reminded
    ensures !r.raised ==> forall k :: k in s.rows && OldPending(s.rows[k], ThresholdHours, now)
                                     ==> k in reminded + SentIds(r.sent)
  {
    var stale := GetOldPendingReports(s, ThresholdHours, now);
    StaleFacts(s, stale, now);
    RemindEachIsPlan(stale, reminded, now, delivered);
    var r := Sweep(Some(stale), reminded, now, delivered);
    var f := Unreminded(stale, reminded);
    forall i | 0 <= i < |r.sent|
      ensures r.sent[i].reportId in s.rows && OldPending(s.rows[r.sent[i].reportId], ThresholdHours, now)
    {
      assert r.sent[i] == ReminderFor(f[i], now);
      UnremindedMember(stale, reminded, f[i]);
    }
    forall k | k in s.rows && OldPending(s.rows[k], ThresholdHours, now) && !r.raised
      ensures k in reminded + SentIds(r.sent)
    {
      assert s.rows[k] in stale by { assert multiset(stale)[s.rows[k]] == 1; }
    }
    r
  }

  /** The stale query returns stored pending rows with distinct ids. */
  lemma StaleFacts(s: Store, stale: seq<Report>, now: int)
    requires Valid(s)
    requires stale == GetOldPendingReports(s, ThresholdHours, now)
    ensures DistinctReports(stale)
    ensures forall x :: x in stale ==> Stored(s, x) && OldPending(x, ThresholdHours, now)
  {
    forall x | x in stale ensures Stored(s, x) && OldPending(x, ThresholdHours, now) {
      assert multiset(stale)[x] > 0;
    }
    assert forall x :: multiset(stale)[x] <= 1;
    NoRepeats(stale);
    forall i, j | 0 <= i < j < |stale| ensures stale[i].id != stale[j].id {
      assert stale[i] in stale && stale[j] in stale;
    }
  }

  /** The inputs of one sweep. */
  datatype Tick = Tick(query: Option<seq<Report>>, now: int, delivered: nat)

  /** What consecutive sweeps send in total, the set they leave, and whether any
      of them cleared it. An exception in one sweep does not stop the next. */
  datatype RunResult = RunResult(sent: seq<Notice>, reminded: set<int>, cleared: bool)

  /** Consecutive sweeps, each starting from the set the previous one left. The set
      only ever holds ids it started with or ids reminded about, and after a clear
      only ids reminded about. */
  function Run(ticks: seq<Tick>, reminded: set<int>): (r: RunResult)
    ensures r.reminded <= reminded + SentIds(r.sent)
    ensures r.cleared ==> r.reminded <= SentIds(r.sent)
    decreases |ticks|
  {
    if |ticks| == 0 then RunResult([], reminded, false)
    else
      var t := ticks[0];
      var first := Sweep(t.query, reminded, t.now, t.delivered);
      var rest := Run(ticks[1..], first.reminded);
      SentIdsAppend(first.sent, rest.sent);
      RunResult(first.sent + rest.sent, rest.reminded, first.cleared || rest.cleared)
  }

  /** Two runs of reminders, each about distinct reports, none of the second
      about a report of the first, are together about distinct reports. */
  lemma DistinctAppend(a: seq<Notice>, b: seq<Notice>)
    requires DistinctIds(a) && DistinctIds(b)
    requires forall j :: 0 <= j < |b| ==> b[j].reportId !in SentIds(a)
    ensures DistinctIds(a + b)
  {
    var all := a + b;
    forall i, j | 0 <= i < j < |all| ensures all[i].reportId != all[j].reportId {
      if j < |a| {
        assert all[i] == a[i] && all[j] == a[j];
      } else if i >= |a| {
        assert all[i] == b[i - |a|] && all[j] == b[j - |a|];
      } else {
        assert all[i] == a[i] && all[j] == b[j - |a|];
        SentIdsMember(a, a[i].reportId);
      }
    }
  }

  /** Between two clears, every report is reminded at most once: across any run of
      sweeps in which the set is never cleared, no id is reminded twice nor was in
      the set beforehand, and the set grows by exactly the ids reminded. */
  lemma {:induction false} AtMostOncePerEpoch(ticks: seq<Tick>, reminded: set<int>)
    requires !Run(ticks, reminded).cleared
    ensures DistinctIds(Run(ticks, reminded).sent)
    ensures forall i :: 0 <= i < |Run(ticks, reminded).sent| ==> Run(ticks, reminded).sent[i].reportId !in reminded
    ensures Run(ticks, reminded).reminded == reminded + SentIds(Run(ticks, reminded).sent)
    decreases |ticks|
  {
    if |ticks| > 0 {
      var t := ticks[0];
      var first := Sweep(t.query, reminded, t.now, t.delivered);
      var rest := Run(ticks[1..], first.reminded);
      assert Run(ticks, reminded) == RunResult(first.sent + rest.sent, rest.reminded, first.cleared || rest.cleared);
      AtMostOncePerEpoch(ticks[1..], first.reminded);
      assert first.reminded == reminded + SentIds(first.sent);
      DistinctAppend(first.sent, rest.sent);
      SentIdsAppend(first.sent, rest.sent);
      var all := first.sent + rest.sent;
      forall i | 0 <= i < |all| ensures all[i].reportId !in reminded {
        if i >= |first.sent| {
          assert all[i] == rest.sent[i - |first.sent|];
        } else {
          assert all[i] == first.sent[i];
        }
      }
    }
  }
}
