/**
 * handlers/admin.py: claiming a report from the group button, completing it
 * with `/complete_<id> <answer>`, and the three status listings.
 * Each handler runs its read and its write with no `await` in between, so on
 * the single event loop it is one atomic step: a pure function from the store
 * to the new store, the reply, and the notices sent afterwards.
 */
module AdminHandlers {
  import opened Wrappers
  import opened PyText
  import opened Ordering
  import opened Queries
  import opened Outbox

  /** Callback data routed to `take_request`. */
  const TakePrefix: string := "take_request_"

  /** Message text routed to `complete_command`. */
  const CompletePrefix: string := "/complete_"

  // ---------------------------------------------------------------- claiming

  /** `int(callback.data.split("_")[2])`; `None` is the `IndexError` or
      `ValueError` that escapes the handler. */
  function ParseTakeData(data: string): (r: Option<nat>)
    ensures r.Some? <==> |Split(data, '_')| >= 3 && IsDigits(Split(data, '_')[2])
  {
    var fields := Split(data, '_');
    if |fields| < 3 then None else ParseNat(fields[2])
  }

  /** Callback data built from an id parses back to that id, with or without
      further `_`-separated fields after it. */
  lemma TakeDataRoundTrip(n: nat, tail: string)
    requires tail == [] || tail[0] == '_'
    ensures ParseTakeData(TakePrefix + ShowNat(n) + tail) == Some(n)
  {
    var d := ShowNat(n);
    DigitsHaveNoSeparators(d);
    var data := TakePrefix + ShowNat(n) + tail;
    assert data == TakePrefix + (d + tail);
    TakeFields(d + tail);
    FirstField(d, tail);
    var fields := Split(data, '_');
    assert fields[2] == Split(d + tail, '_')[0] == d;
    ParseShowNat(n);
  }

  /** A separator-free head followed by nothing or by a separator is the first field. */
  lemma FirstField(d: string, tail: string)
    requires '_' !in d
    requires tail == [] || tail[0] == '_'
    ensures Split(d + tail, '_')[0] == d
  {
    if tail == [] {
      assert d + tail == d;
      SplitNoSep(d, '_');
    } else {
      var rest := tail[1..];
      assert tail == ['_'] + rest;
      assert d + tail == d + ['_'] + rest;
      SplitHead(d, '_', rest);
      assert Split(d + tail, '_') == [d] + Split(rest, '_');
    }
  }

  /** The prefix contributes the two fields `take` and `request`. */
  lemma TakeFields(rest: string)
    ensures Split(TakePrefix + rest, '_') == ["take", "request"] + Split(rest, '_')
  {
    assert TakePrefix + rest == "take" + ['_'] + ("request" + ['_'] + rest);
    SplitHead("take", '_', "request" + ['_'] + rest);
    SplitHead("request", '_', rest);
  }

  datatype TakeOutcome =
    | TakeMalformed                                 // the id did not parse: the handler raised
    | TakeNotFound(id: nat)                         // "report not found"
    | AlreadyTaken(id: nat, holder: Option<string>) // "already taken by <holder>"
    | Taken(id: nat)                                // "report assigned to you"

  datatype TakeResult = TakeResult(store: Store, outcome: TakeOutcome, sent: seq<Notice>)

  /** `take_request`: only a pending report can be taken; the caller becomes responsible. */
  function TakeRequest(s: Store, data: string, callerId: int, callerName: string,
                       now: int, delivered: nat): (r: TakeResult)
    requires Valid(s)
    requires StartsWith(data, TakePrefix)
    ensures Valid(r.store)
    ensures r.outcome == TakeMalformed <==> ParseTakeData(data).None?
    ensures r.outcome.Taken? <==>
      ParseTakeData(data).Some? && ParseTakeData(data).value in s.rows
      && s.rows[ParseTakeData(data).value].status == Pending
    ensures !r.outcome.Taken? ==> r.store == s && r.sent == []
    ensures r.outcome.TakeNotFound? ==> ParseTakeData(data) == Some(r.outcome.id) && r.outcome.id !in s.rows
    ensures r.outcome.AlreadyTaken? ==>
      && ParseTakeData(data) == Some(r.outcome.id)
      && r.outcome.id in s.rows
      && r.outcome.holder == s.rows[r.outcome.id].responsibleName
    ensures r.outcome.Taken? ==>
      && ParseTakeData(data) == Some(r.outcome.id)
      && r.outcome.id in r.store.rows
      && r.store.rows[r.outcome.id].status == InProgress
      && r.store.rows[r.outcome.id].responsibleId == Some(callerId)
      && r.store.rows[r.outcome.id].responsibleName == Some(callerName)
      && r.store.rows[r.outcome.id].takenAt == Some(now)
      && r.store.rows[r.outcome.id] == s.rows[r.outcome.id].(status := InProgress,
           responsibleId := Some(callerId), responsibleName := Some(callerName), takenAt := Some(now))
      && OthersUnchanged(s, r.store, r.outcome.id)
      && r.store.nextId == s.nextId
      && r.sent == Deliver([Notice(AdminGroup, ClaimShown, r.outcome.id),
                            Notice(Person(callerId), ClaimDetails, r.outcome.id)], delivered)
  {
    match ParseTakeData(data)
    case None => TakeResult(s, TakeMalformed, [])
    case Some(id) =>
      match GetReport(s, id)
      case None => TakeResult(s, TakeNotFound(id), [])
      case Some(report) =>
        if report.status != Pending then
          TakeResult(s, AlreadyTaken(id, report.responsibleName), [])
        else
          var t := TakeReport(s, id, callerId, callerName, now);
          var planned := [Notice(AdminGroup, ClaimShown, id), Notice(Person(callerId), ClaimDetails, id)];
          TakeResult(t, Taken(id), Deliver(planned, delivered))
  }

  // ---------------------------------------------------------------- completing

  datatype CompleteParse =
    | FormatError                            // `IndexError`/`ValueError`: "wrong command format"
    | MissingResponse(id: nat)               // no text after the command: the usage message
    | CompleteArgs(id: nat, response: string)

  /** `parts = text.split(" ", 1)`, `int(parts[0].split("_")[1])`, then `parts[1]`.
      The id is parsed before the answer is looked for, so a bad id wins over a
      missing answer. */
  function ParseComplete(text: string): (r: CompleteParse)
    ensures r.MissingResponse? ==> ' ' !in text
    ensures !r.FormatError? ==> (r.MissingResponse? <==> ' ' !in text)
    ensures r.CompleteArgs? ==>
      && |r.response| < |text|
      && text[|text| - |r.response|..] == r.response
      && text[|text| - |r.response| - 1] == ' '
      && ' ' !in text[..|text| - |r.response| - 1]
  {
    var parts := SplitOnce(text, ' ');
    var fields := Split(parts[0], '_');
    if |fields| < 2 then FormatError
    else
      match ParseNat(fields[1])
      case None => FormatError
      case Some(id) =>
        if |parts| < 2 then MissingResponse(id)
        else
          assert text == parts[0] + [' '] + parts[1];
          assert text[..|text| - |parts[1]| - 1] == parts[0];
          CompleteArgs(id, parts[1])
  }

  /** The one way a separator-free head and a separator can start a string. */
  lemma SplitOnceOf(a: string, c: char, b: string)
    requires c !in a
    ensures SplitOnce(a + [c] + b, c) == [a, b]
  {
    var s := a + [c] + b;
    assert s[|a|] == c;
    var parts := SplitOnce(s, c);
    assert |parts| == 2;
    assert |parts[0]| == |a|;
    assert parts[0] == s[..|a|] == a;
    assert parts[1] == s[|a| + 1..] == b;
  }

  /** The command the bot tells administrators to send parses back to its id and
      answer, whatever the answer contains (spaces and `_` included). */
  lemma CompleteRoundTrip(n: nat, response: string)
    ensures ParseComplete(CompletePrefix + ShowNat(n) + " " + response) == CompleteArgs(n, response)
  {
    var d := ShowNat(n);
    DigitsHaveNoSeparators(d);
    var head := CompletePrefix + d;
    assert ' ' !in head;
    assert CompletePrefix + d + " " + response == head + [' '] + response;
    SplitOnceOf(head, ' ', response);
    assert head == "/complete" + ['_'] + d;
    SplitHead("/complete", '_', d);
    SplitNoSep(d, '_');
    ParseShowNat(n);
  }

  /** Without an answer the command yields the usage message for its id. */
  lemma CompleteWithoutAnswer(n: nat)
    ensures ParseComplete(CompletePrefix + ShowNat(n)) == MissingResponse(n)
  {
    var d := ShowNat(n);
    DigitsHaveNoSeparators(d);
    var head := CompletePrefix + d;
    assert ' ' !in head;
    assert head == "/complete" + ['_'] + d;
    SplitHead("/complete", '_', d);
    SplitNoSep(d, '_');
    ParseShowNat(n);
  }

  /** An id that is not a digit string is a format error, answer or not. */
  lemma CompleteBadId(id: string, rest: string)
    requires ' ' !in id && '_' !in id && !IsDigits(id)
    requires rest == [] || rest[0] == ' '
    ensures ParseComplete(CompletePrefix + id + rest) == FormatError
  {
    var head := CompletePrefix + id;
    assert ' ' !in head;
    if rest == [] {
      assert CompletePrefix + id + rest == head;
    } else {
      assert CompletePrefix + id + rest == head + [' '] + rest[1..];
      SplitOnceOf(head, ' ', rest[1..]);
    }
    assert head == "/complete" + ['_'] + id;
    SplitHead("/complete", '_', id);
    SplitNoSep(id, '_');
  }

  datatype CompleteOutcome =
    | BadFormat
    | Usage(id: nat)
    | NotFound(id: nat)
    | AlreadyCompleted(id: nat, holder: Option<string>, completedAt: Option<int>)
    | NotResponsible(id: nat, holder: Option<string>)
    | Done(id: nat, response: string)

  datatype CompleteResult = CompleteResult(store: Store, outcome: CompleteOutcome, sent: seq<Notice>)

  /** `complete_command`: only the recorded responsible administrator can complete
      a report that is not completed yet. */
  function CompleteCommand(s: Store, text: string, callerId: int, now: int, delivered: nat): (r: CompleteResult)
    requires Valid(s)
    requires StartsWith(text, CompletePrefix)
    ensures Valid(r.store)
    ensures r.outcome.BadFormat? <==> ParseComplete(text).FormatError?
    ensures r.outcome.Usage? <==> ParseComplete(text).MissingResponse?
    ensures r.outcome.Done? <==>
      && ParseComplete(text).CompleteArgs?
      && ParseComplete(text).id in s.rows
      && s.rows[ParseComplete(text).id].status != Completed
      && s.rows[ParseComplete(text).id].responsibleId == Some(callerId)
    ensures !r.outcome.Done? ==> r.store == s && r.sent == []
    ensures r.outcome.NotFound? || r.outcome.AlreadyCompleted? || r.outcome.NotResponsible? ==>
      && ParseComplete(text).CompleteArgs?
      && r.outcome.id == ParseComplete(text).id
    ensures r.outcome.Usage? ==> r.outcome.id == ParseComplete(text).id
    ensures r.outcome.NotFound? ==> r.outcome.id !in s.rows
    ensures r.outcome.AlreadyCompleted? ==>
      && r.outcome.id in s.rows
      && s.rows[r.outcome.id].status == Completed
      && r.outcome.holder == s.rows[r.outcome.id].responsibleName
      && r.outcome.completedAt == s.rows[r.outcome.id].completedAt
    ensures r.outcome.NotResponsible? ==>
      && r.outcome.id in s.rows
      && s.rows[r.outcome.id].status != Completed
      && s.rows[r.outcome.id].responsibleId != Some(callerId)
      && r.outcome.holder == s.rows[r.outcome.id].responsibleName
    ensures r.outcome.Done? ==>
      && ParseComplete(text) == CompleteArgs(r.outcome.id, r.outcome.response)
      && r.outcome.id in r.store.rows
      && r.store.rows[r.outcome.id].status == Completed
      && r.store.rows[r.outcome.id].adminResponse == Some(r.outcome.response)
      && r.store.rows[r.outcome.id].completedAt == Some(now)
      && r.store.rows[r.outcome.id].responsibleId == Some(callerId)
      && r.store.rows[r.outcome.id].responsibleName == s.rows[r.outcome.id].responsibleName
      && r.store.rows[r.outcome.id] == s.rows[r.outcome.id].(status := Completed,
           adminResponse := Some(r.outcome.response), completedAt := Some(now))
      && OthersUnchanged(s, r.store, r.outcome.id)
      && r.store.nextId == s.nextId
      && r.sent == Deliver([Notice(Person(callerId), CompletionAck, r.outcome.id),
                            Notice(Person(s.rows[r.outcome.id].userId), Resolution, r.outcome.id)], delivered)
  {
    match ParseComplete(text)
    case FormatError => CompleteResult(s, BadFormat, [])
    case MissingResponse(id) => CompleteResult(s, Usage(id), [])
    case CompleteArgs(id, response) =>
      match GetReport(s, id)
      case None => CompleteResult(s, NotFound(id), [])
      case Some(report) =>
        if report.status == Completed then
          CompleteResult(s, AlreadyCompleted(id, report.responsibleName, report.completedAt), [])
        else if report.responsibleId != Some(callerId) then
          CompleteResult(s, NotResponsible(id, report.responsibleName), [])
        else
          var t := CompleteReport(s, id, response, now);
          var planned := [Notice(Person(callerId), CompletionAck, id),
                          Notice(Person(report.userId), Resolution, id)];
          CompleteResult(t, Done(id, response), Deliver(planned, delivered))
  }

  // ---------------------------------------------------------------- listings

  /** What a status listing shows: nothing, or the total and the first `cap` rows. */
  datatype Listing = NothingToShow | Page(total: nat, shown: seq<Report>)

  /** A listing of the rows with `status`: nothing exactly when there are none;
      otherwise the number of them and the newest `cap`, newest first, with no
      row left out newer than one shown. */
  ghost predicate IsStatusPage(s: Store, status: Status, cap: nat, r: Listing)
    requires Valid(s)
  {
    && (r.NothingToShow? <==> forall k :: k in s.rows ==> s.rows[k].status != status)
    && (r.Page? ==>
      && r.total == |GetReportsByStatus(s, status)|
      && r.total > 0
      && |r.shown| == (if cap < r.total then cap else r.total)
      && (forall x :: x in r.shown ==> Stored(s, x) && x.status == status)
      && NewestFirst(r.shown)
      && (forall x, y :: x in r.shown && Stored(s, y) && y.status == status && y !in r.shown
                         ==> y.createdAt <= x.createdAt))
  }

  /** `get_reports_by_status(status)` shown as in `show_*_reports`: a header with the
      number of matching reports and the newest `cap` of them. */
  function StatusPage(s: Store, status: Status, cap: nat): (r: Listing)
    requires Valid(s)
    ensures IsStatusPage(s, status, cap, r)
  {
    var all := GetReportsByStatus(s, status);
    if |all| == 0 then
      forall k | k in s.rows ensures s.rows[k].status != status {
        assert multiset(all)[s.rows[k]] == 0;
      }
      NothingToShow
    else
      assert all[0] in multiset(all);
      Page(|all|, NewestMatching(s, HasStatus(status), cap))
  }

  /** `/pending`: the number of pending reports and the newest 20 of them. */
  function ShowPendingReports(s: Store): (r: Listing)
    requires Valid(s)
    ensures IsStatusPage(s, Pending, 20, r)
  {
    StatusPage(s, Pending, 20)
  }

  /** `/inprogress`: the number of reports in progress and the newest 20 of them. */
  function ShowInProgressReports(s: Store): (r: Listing)
    requires Valid(s)
    ensures IsStatusPage(s, InProgress, 20, r)
  {
    StatusPage(s, InProgress, 20)
  }

  /** `/completed`: the number of completed reports and the newest 15 of them. */
  function ShowCompletedReports(s: Store): (r: Listing)
    requires Valid(s)
    ensures IsStatusPage(s, Completed, 15, r)
  {
    StatusPage(s, Completed, 15)
  }
}
