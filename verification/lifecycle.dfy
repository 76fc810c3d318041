/**
 * The report lifecycle as a state machine over the store. Each step is one
 * handler invocation (a handler's read and write have no `await` between them,
 * so within the single bot process it is atomic): a message from a reporter,
 * an administrator's claim, an administrator's completion, or a direct
 * `delete_report`. The properties are those the handlers together keep:
 * `pending → in_progress → completed`, a responsible administrator set once,
 * `completed` terminal, and ids never handed out twice.
 */
module Lifecycle {
  import opened Wrappers
  import opened PyText
  import opened Queries
  import opened Outbox
  import opened AdminHandlers
  import opened UserHandlers

  // ---------------------------------------------------------------- invariant

  /** What the bot's own writes guarantee about a row at time `now`: the fields
      each status needs are set, the others are not, and its timestamps are in
      order and not in the future. */
  predicate WellFormedRow(x: Report, now: int) {
    && x.createdAt <= now
    && match x.status
       case Pending => Unclaimed(x)
       case InProgress =>
         && x.responsibleId.Some? && x.responsibleName.Some?
         && x.takenAt.Some? && x.createdAt <= x.takenAt.value <= now
         && x.adminResponse.None? && x.completedAt.None?
       case Completed =>
         && x.responsibleId.Some? && x.responsibleName.Some?
         && x.takenAt.Some? && x.adminResponse.Some? && x.completedAt.Some?
         && x.createdAt <= x.takenAt.value <= x.completedAt.value <= now
       case Unrecognised(_) => false
  }

  ghost predicate WellFormed(s: Store, now: int) {
    Valid(s) && forall k :: k in s.rows ==> WellFormedRow(s.rows[k], now)
  }

  // ---------------------------------------------------------------- steps

  /** One handler invocation against the store. A claim or a completion whose
      text does not start with the routed prefix reaches no handler. `Complete`
      is a `/complete_` message from an administrator whose own conversation is
      not waiting for a report text; in that state the user router, included
      first, takes the message as a `Message`. */
  datatype Event =
    | Message(conv: Conversation, userId: int, userName: string, text: Option<string>, delivered: nat)
    | Claim(data: string, adminId: int, adminName: string, delivered: nat)
    | Complete(command: string, adminId: int, delivered: nat)
    | Delete(id: int)

  /** The store after one event: still valid, with at most one sequence value issued. */
  function Step(s: Store, e: Event, now: int): (t: Store)
    requires Valid(s)
    ensures Valid(t)
    ensures s.nextId <= t.nextId <= s.nextId + 1
  {
    match e
    case Message(c, uid, uname, text, d) => OnMessage(s, c, uid, uname, text, now, d).store
    case Claim(data, aid, aname, d) =>
      if StartsWith(data, TakePrefix) then TakeRequest(s, data, aid, aname, now, d).store else s
    case Complete(command, aid, d) =>
      if StartsWith(command, CompletePrefix) then CompleteCommand(s, command, aid, now, d).store else s
    case Delete(id) => DeleteReport(s, id).0
  }

  /** The parts of a row fixed when it is submitted. */
  predicate SameSubmission(a: Report, b: Report) {
    && a.id == b.id && a.userId == b.userId && a.userName == b.userName
    && a.reportType == b.reportType && a.reportText == b.reportText
    && a.createdAt == b.createdAt
  }

  /** One step moves a row at most one status forward: a pending row is claimed
      (gaining its responsible administrator), or an in-progress row is completed
      (keeping it); any other row stays exactly as it is. */
  predicate Advances(a: Report, b: Report) {
    || a == b
    || (&& a.status == Pending && b.status == InProgress && SameSubmission(a, b)
        && a.responsibleId.None? && b.responsibleId.Some?)
    || (&& a.status == InProgress && b.status == Completed && SameSubmission(a, b)
        && b.responsibleId == a.responsibleId && b.responsibleName == a.responsibleName
        && b.takenAt == a.takenAt)
  }

  /** Every handler step keeps the invariant, with the clock not going back. */
  lemma StepKeepsWellFormed(s: Store, e: Event, before: int, now: int)
    requires WellFormed(s, before) && before <= now
    ensures WellFormed(Step(s, e, now), now)
  {
    var t := Step(s, e, now);
    forall k | k in t.rows ensures WellFormedRow(t.rows[k], now) {
      if k in s.rows {
        assert WellFormedRow(s.rows[k], before);
      }
      StepRow(s, e, before, now, k);
    }
  }

  /** How a step treats one row: an old row advances (and stays well formed), a
      new row is a fresh pending submission. */
  lemma StepRow(s: Store, e: Event, before: int, now: int, k: int)
    requires WellFormed(s, before) && before <= now
    ensures var t := Step(s, e, now);
      && (k in s.rows && k in t.rows ==> Advances(s.rows[k], t.rows[k]))
      && (k in t.rows ==> WellFormedRow(t.rows[k], now))
      && (k in t.rows && k !in s.rows ==> s.nextId <= k && Unclaimed(t.rows[k]))
  {
    var t := Step(s, e, now);
    if k in s.rows {
      assert WellFormedRow(s.rows[k], before);
    }
    match e
    case Message(c, uid, uname, text, d) =>
      if !IsStartCommand(text) && c.phase == WaitingForMessage {
        var r := ProcessReportMessage(s, c, uid, uname, text, now, d);
        assert t == r.store;
        if r.outcome.Submitted? && k != r.outcome.id {
          assert SameAt(s.rows, t.rows, k);
        }
      }
    case Claim(data, aid, aname, d) =>
      if StartsWith(data, TakePrefix) {
        var r := TakeRequest(s, data, aid, aname, now, d);
        if r.outcome.Taken? && k != r.outcome.id {
          assert SameAt(s.rows, t.rows, k);
        }
      }
    case Complete(text, aid, d) =>
      if StartsWith(text, CompletePrefix) {
        var r := CompleteCommand(s, text, aid, now, d);
        if r.outcome.Done? && k != r.outcome.id {
          assert SameAt(s.rows, t.rows, k);
        }
      }
    case Delete(id) =>
      if k != id {
        assert SameAt(s.rows, t.rows, k);
      }
  }

  // ---------------------------------------------------------------- traces

  /** An event together with the time it is handled. */
  datatype Stamped = Stamped(event: Event, now: int)

  /** The clock never goes back, starting from `before`. */
  ghost predicate Ticking(evs: seq<Stamped>, before: int)
    decreases |evs|
  {
    |evs| == 0 || (before <= evs[0].now && Ticking(evs[1..], evs[0].now))
  }

  function LastTime(evs: seq<Stamped>, before: int): int {
    if |evs| == 0 then before else evs[|evs| - 1].now
  }

  function Run(s: Store, evs: seq<Stamped>): (t: Store)
    requires Valid(s)
    ensures Valid(t)
    ensures s.nextId <= t.nextId
    decreases |evs|
  {
    if |evs| == 0 then s
    else
      var first := Step(s, evs[0].event, evs[0].now);
      StepKeepsValid(s, evs[0].event, evs[0].now);
      Run(first, evs[1..])
  }

  /** A step keeps the store valid and never moves the sequence back. */
  lemma StepKeepsValid(s: Store, e: Event, now: int)
    requires Valid(s)
    ensures Valid(Step(s, e, now)) && s.nextId <= Step(s, e, now).nextId
  {
  }

  /** Every id that is a key at some point of the run: the rows there before it,
      and each row some step created, whether or not it was deleted later. */
  ghost function Issued(s: Store, evs: seq<Stamped>): set<int>
    requires Valid(s)
    decreases |evs|
  {
    if |evs| == 0 then s.rows.Keys
    else s.rows.Keys + Issued(Step(s, evs[0].event, evs[0].now), evs[1..])
  }

  /** Any run keeps the invariant. */
  lemma {:induction false} RunKeepsWellFormed(s: Store, evs: seq<Stamped>, before: int)
    requires WellFormed(s, before) && Ticking(evs, before)
    ensures WellFormed(Run(s, evs), LastTime(evs, before))
    decreases |evs|
  {
    if |evs| > 0 {
      StepKeepsWellFormed(s, evs[0].event, before, evs[0].now);
      RunKeepsWellFormed(Step(s, evs[0].event, evs[0].now), evs[1..], evs[0].now);
      assert LastTime(evs[1..], evs[0].now) == LastTime(evs, before);
    }
  }

  /** Every id ever issued lies below the sequence value at the end of the run. */
  lemma {:induction false} IssuedBelowNext(s: Store, evs: seq<Stamped>)
    requires Valid(s)
    ensures forall k :: k in Issued(s, evs) ==> k < Run(s, evs).nextId
    decreases |evs|
  {
    if |evs| > 0 {
      var first := Step(s, evs[0].event, evs[0].now);
      StepKeepsValid(s, evs[0].event, evs[0].now);
      IssuedBelowNext(first, evs[1..]);
    }
  }

  /** Ids are never reused: a report submitted after any run of steps, deletions
      included, gets an id that was never a key before. */
  lemma NewIdNeverIssued(s: Store, evs: seq<Stamped>, c: Conversation, userId: int,
                         userName: string, text: Option<string>, now: int, delivered: nat)
    requires Valid(s)
    ensures var r := OnMessage(Run(s, evs), c, userId, userName, text, now, delivered);
      r.outcome.Submitted? ==> r.outcome.id !in Issued(s, evs)
  {
    IssuedBelowNext(s, evs);
    var t := Run(s, evs);
    var r := OnMessage(t, c, userId, userName, text, now, delivered);
    if r.outcome.Submitted? {
      assert r.outcome.id == t.nextId;
    }
  }

  /** A row, once deleted, is not brought back by later steps. */
  lemma {:induction false} GoneStaysGone(s: Store, evs: seq<Stamped>, k: int)
    requires Valid(s) && k !in s.rows && k < s.nextId
    ensures k !in Run(s, evs).rows
    decreases |evs|
  {
    if |evs| > 0 {
      var first := Step(s, evs[0].event, evs[0].now);
      StepKeepsValid(s, evs[0].event, evs[0].now);
      StepFreshKey(s, evs[0].event, evs[0].now, k);
      GoneStaysGone(first, evs[1..], k);
    }
  }

  /** A key a step adds is the sequence's value from before the step. */
  lemma StepFreshKey(s: Store, e: Event, now: int, k: int)
    requires Valid(s)
    ensures k in Step(s, e, now).rows && k !in s.rows ==> s.nextId <= k
  {
    match e
    case Message(c, uid, uname, text, d) =>
      if !IsStartCommand(text) && c.phase == WaitingForMessage {
        var r := ProcessReportMessage(s, c, uid, uname, text, now, d);
        if r.outcome.Submitted? && k != r.outcome.id {
          assert SameAt(s.rows, r.store.rows, k);
        }
      }
    case Claim(data, aid, aname, d) =>
      if StartsWith(data, TakePrefix) {
        var r := TakeRequest(s, data, aid, aname, now, d);
        if r.outcome.Taken? && k != r.outcome.id {
          assert SameAt(s.rows, r.store.rows, k);
        }
      }
    case Complete(text, aid, d) =>
      if StartsWith(text, CompletePrefix) {
        var r := CompleteCommand(s, text, aid, now, d);
        if r.outcome.Done? && k != r.outcome.id {
          assert SameAt(s.rows, r.store.rows, k);
        }
      }
    case Delete(id) =>
      if k != id {
        assert SameAt(s.rows, DeleteReport(s, id).0.rows, k);
      }
  }

  function Rank(st: Status): int {
    match st
    case Pending => 0
    case InProgress => 1
    case Completed => 2
    case Unrecognised(_) => 3
  }

  /** What a run of steps can do to a row: its submission is untouched, its
      status never moves back, a completed row never changes again, and once it
      has a responsible administrator that administrator never changes. */
  predicate Reaches(a: Report, b: Report) {
    && SameSubmission(a, b)
    && Rank(a.status) <= Rank(b.status)
    && (a.status == Completed ==> b == a)
    && (a.responsibleId.Some? ==> b.responsibleId == a.responsibleId && b.responsibleName == a.responsibleName)
  }

  /** Over any run, a row present at both ends has only advanced. */
  lemma {:induction false} RunAdvances(s: Store, evs: seq<Stamped>, before: int, k: int)
    requires WellFormed(s, before) && Ticking(evs, before)
    requires k in s.rows && k in Run(s, evs).rows
    ensures Reaches(s.rows[k], Run(s, evs).rows[k])
    decreases |evs|
  {
    if |evs| == 0 {
      assert Run(s, evs) == s;
    } else {
      var e, now := evs[0].event, evs[0].now;
      var first := Step(s, e, now);
      StepKeepsWellFormed(s, e, before, now);
      StepRow(s, e, before, now, k);
      if k in first.rows {
        RunAdvances(first, evs[1..], now, k);
        assert WellFormedRow(first.rows[k], now);
      } else {
        GoneStaysGone(first, evs[1..], k);
      }
    }
  }

  // ---------------------------------------------------------------- scenarios

  /** Two administrators press the claim button of the same pending report one
      after the other: the first becomes responsible, the second is told who took
      it, and nothing changes for the second press. */
  lemma ClaimRace(s: Store, id: nat, first: int, firstName: string, second: int, secondName: string,
                  now1: int, now2: int, d1: nat, d2: nat)
    requires Valid(s) && id in s.rows && s.rows[id].status == Pending
    ensures var data := TakePrefix + ShowNat(id);
      var r1 := TakeRequest(s, data, first, firstName, now1, d1);
      var r2 := TakeRequest(r1.store, data, second, secondName, now2, d2);
      && r1.outcome == Taken(id)
      && r2.outcome == AlreadyTaken(id, Some(firstName))
      && r2.store == r1.store && r2.sent == []
  {
    TakeDataRoundTrip(id, []);
    assert TakePrefix + ShowNat(id) + [] == TakePrefix + ShowNat(id);
  }

  /** Completing a report twice: the second command, by anyone and with any
      answer, is refused with the original administrator and completion time. */
  lemma DoubleCompletion(s: Store, id: nat, admin: int, answer1: string, other: int, answer2: string,
                         now1: int, now2: int, d1: nat, d2: nat)
    requires Valid(s) && id in s.rows && s.rows[id].status == InProgress
    requires s.rows[id].responsibleId == Some(admin)
    ensures var r1 := CompleteCommand(s, CompletePrefix + ShowNat(id) + " " + answer1, admin, now1, d1);
      var r2 := CompleteCommand(r1.store, CompletePrefix + ShowNat(id) + " " + answer2, other, now2, d2);
      && r1.outcome == Done(id, answer1)
      && r2.outcome == AlreadyCompleted(id, s.rows[id].responsibleName, Some(now1))
      && r2.store == r1.store && r2.sent == []
  {
    CompleteRoundTrip(id, answer1);
    CompleteRoundTrip(id, answer2);
    StartsWithShown(id, answer1);
    StartsWithShown(id, answer2);
  }

  lemma StartsWithShown(id: nat, answer: string)
    ensures StartsWith(CompletePrefix + ShowNat(id) + " " + answer, CompletePrefix)
  {
    assert (CompletePrefix + ShowNat(id) + " " + answer)[..|CompletePrefix|] == CompletePrefix;
  }

  /** In a well-formed store nobody can complete a pending report: it has no
      responsible administrator, so the command is refused and changes nothing. */
  lemma PendingNeverCompleted(s: Store, before: int, text: string, caller: int, now: int, delivered: nat)
    requires WellFormed(s, before) && StartsWith(text, CompletePrefix)
    requires ParseComplete(text).CompleteArgs?
    requires ParseComplete(text).id in s.rows && s.rows[ParseComplete(text).id].status == Pending
    ensures CompleteCommand(s, text, caller, now, delivered).outcome
            == NotResponsible(ParseComplete(text).id, None)
    ensures CompleteCommand(s, text, caller, now, delivered).store == s
  {
    assert WellFormedRow(s.rows[ParseComplete(text).id], before);
  }

  /** The whole story on a fresh table: a suggestion is submitted (any text but
      `/start`, which `cmd_start` takes first), claimed from the group and
      completed by the administrator who claimed it. */
  lemma SuggestionResolved(text: string, answer: string, user: int, userName: string,
                           admin: int, adminName: string)
    requires !IsStartCommand(Some(text))
    ensures var r1 := OnMessage(EmptyStore, Suggestion(Cleared, 1), user, userName, Some(text), 100, 2);
      var r2 := TakeRequest(r1.store, "take_request_1", admin, adminName, 200, 2);
      var r3 := CompleteCommand(r2.store, FirstCommand(answer), admin, 300, 2);
      && r1.outcome == Submitted(1) && r1.conv == Cleared
      && r2.outcome == Taken(1)
      && r3.outcome == Done(1, answer)
      && r3.store.rows[1].status == Completed
      && r3.store.rows[1].reportType == SuggestionLabel
      && r3.store.rows[1].reportText == text
      && r3.store.rows[1].responsibleName == Some(adminName)
      && r3.store.rows[1].adminResponse == Some(answer)
      && r3.sent == [Notice(Person(admin), CompletionAck, 1), Notice(Person(user), Resolution, 1)]
  {
    var r1 := OnMessage(EmptyStore, Suggestion(Cleared, 1), user, userName, Some(text), 100, 2);
    SubmitFirst(text, user, userName);
    var r2 := TakeRequest(r1.store, "take_request_1", admin, adminName, 200, 2);
    ClaimFirst(r1.store, admin, adminName);
    CompleteFirst(r2.store, answer, admin);
  }

  /** The first submission on a fresh table is report 1, pending. */
  lemma SubmitFirst(text: string, user: int, userName: string)
    requires !IsStartCommand(Some(text))
    ensures var r := OnMessage(EmptyStore, Suggestion(Cleared, 1), user, userName, Some(text), 100, 2);
      && r.outcome == Submitted(1) && r.conv == Cleared
      && Valid(r.store) && 1 in r.store.rows
      && r.store.rows[1].status == Pending && r.store.rows[1].userId == user
      && r.store.rows[1].reportType == SuggestionLabel && r.store.rows[1].reportText == text
  {
  }

  /** Pressing the claim button of report 1 while it is pending takes it. */
  lemma ClaimFirst(s: Store, admin: int, adminName: string)
    requires Valid(s) && 1 in s.rows && s.rows[1].status == Pending
    ensures var r := TakeRequest(s, "take_request_1", admin, adminName, 200, 2);
      && r.outcome == Taken(1)
      && r.store.rows[1] == s.rows[1].(status := InProgress, responsibleId := Some(admin),
                                      responsibleName := Some(adminName), takenAt := Some(200))
  {
    assert ShowNat(1) == "1";
    TakeDataRoundTrip(1, []);
    assert TakePrefix + ShowNat(1) + [] == "take_request_1";
  }

  /** Its responsible administrator completing report 1 answers both sides. */
  lemma CompleteFirst(s: Store, answer: string, admin: int)
    requires Valid(s) && 1 in s.rows && s.rows[1].status == InProgress
    requires s.rows[1].responsibleId == Some(admin)
    ensures var r := CompleteCommand(s, FirstCommand(answer), admin, 300, 2);
      && r.outcome == Done(1, answer)
      && r.store.rows[1] == s.rows[1].(status := Completed, adminResponse := Some(answer),
                                      completedAt := Some(300))
      && r.sent == [Notice(Person(admin), CompletionAck, 1), Notice(Person(s.rows[1].userId), Resolution, 1)]
  {
    CompleteInProgress(s, FirstCommand(answer), 1, answer, admin, 300);
  }

  /** `/complete_1 <answer>`: the command that completes report 1. It is routed to
      `complete_command` and parses to report 1 with the answer. */
  function FirstCommand(answer: string): (cmd: string)
    ensures cmd == "/complete_1 " + answer
    ensures StartsWith(cmd, CompletePrefix)
    ensures ParseComplete(cmd) == CompleteArgs(1, answer)
  {
    var cmd := "/complete_1 " + answer;
    assert cmd == CompletePrefix + ShowNat(1) + " " + answer by {
      assert ShowNat(1) == "1";
    }
    CompleteRoundTrip(1, answer);
    assert StartsWith(cmd, CompletePrefix) by {
      assert cmd[..|CompletePrefix|] == CompletePrefix;
    }
    cmd
  }

  /** A command that parses, sent by the responsible administrator of a report in
      progress, completes exactly that row and notifies both sides. */
  lemma CompleteInProgress(s: Store, cmd: string, id: nat, answer: string, admin: int, now: int)
    requires Valid(s) && StartsWith(cmd, CompletePrefix)
    requires ParseComplete(cmd) == CompleteArgs(id, answer)
    requires id in s.rows && s.rows[id].status == InProgress && s.rows[id].responsibleId == Some(admin)
    ensures var r := CompleteCommand(s, cmd, admin, now, 2);
      && r.outcome == Done(id, answer)
      && r.store.rows[id] == s.rows[id].(status := Completed, adminResponse := Some(answer),
                                        completedAt := Some(now))
      && r.sent == [Notice(Person(admin), CompletionAck, id), Notice(Person(s.rows[id].userId), Resolution, id)]
  {
  }
}
