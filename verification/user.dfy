/**
 * handlers/user.py: the reporter's side. The conversation is aiogram's FSM
 * state for one chat (the current state plus its data dictionary); a report is
 * written to the store only by the message handler of `waiting_for_message`.
 */
module UserHandlers {
  import opened Wrappers
  import opened PyText
  import opened Ordering
  import opened Queries
  import opened Outbox

  /** `ReportStates`, with `Idle` for "no state set". `WaitingForReportType` is
      declared in handlers/user.py but never entered. */
  datatype Phase = Idle | WaitingForReportType | WaitingForMessage

  /** The FSM data dictionary. The handlers read it with `.get`, so a key that was
      never set and a key set to `None` are the same `None` here. */
  datatype Draft = Draft(category: Option<string>, reportType: Option<string>)

  datatype Conversation = Conversation(phase: Phase, draft: Draft)

  /** After `state.clear()`: no state and no data. */
  const Cleared: Conversation := Conversation(Idle, Draft(None, None))

  const FacilityLabel: string := "Помещение/оборудование"
  const EducationLabel: string := "Учебный процесс"
  const StaffLabel: string := "Персонал"
  const SuggestionLabel: string := "Предложение"
  const FeedbackLabel: string := "Обратная связь"

  // ---------------------------------------------------------------- choosing a category

  /** `type_map.get(callback.data)` in `select_report_type`. */
  function TypeLabel(code: string): (r: Option<string>)
    ensures r.Some? <==> code == "type_facility" || code == "type_education" || code == "type_staff"
    ensures r.Some? ==> r.value in {FacilityLabel, EducationLabel, StaffLabel}
  {
    if code == "type_facility" then Some(FacilityLabel)
    else if code == "type_education" then Some(EducationLabel)
    else if code == "type_staff" then Some(StaffLabel)
    else None
  }

  /** The code a stored problem type was chosen with. */
  function TypeCode(typeName: string): Option<string> {
    if typeName == FacilityLabel then Some("type_facility")
    else if typeName == EducationLabel then Some("type_education")
    else if typeName == StaffLabel then Some("type_staff")
    else None
  }

  /** The three labels are distinct, so the stored type tells which button was pressed. */
  lemma TypeLabelDecodes(code: string)
    requires TypeLabel(code).Some?
    ensures TypeCode(TypeLabel(code).value) == Some(code)
  {
  }

  /** `report_problem`: records the category; the state is left as it was. */
  function ReportProblem(c: Conversation): (r: Conversation)
    ensures r.phase == c.phase && r.draft.reportType == c.draft.reportType
    ensures r.draft.category == Some("problem")
  {
    c.(draft := c.draft.(category := Some("problem")))
  }

  /** The state after the prompt edit of `suggestion`, `feedback` and `select_report_type`:
      `set_state` comes after `edit_text`, so the conversation waits for the text
      only when the edit went through (`delivered >= 1`); a raising edit leaves the
      state as it was, with the data already updated. */
  function AfterPrompt(c: Conversation, draft: Draft, delivered: nat): (r: Conversation)
    ensures r.draft == draft
    ensures r.phase == (if delivered >= 1 then WaitingForMessage else c.phase)
  {
    Conversation(if delivered >= 1 then WaitingForMessage else c.phase, draft)
  }

  /** `suggestion`: fixes the type, edits the prompt in, and waits for the text. */
  function Suggestion(c: Conversation, delivered: nat): (r: Conversation)
    ensures r.phase == WaitingForMessage <==> delivered >= 1 || c.phase == WaitingForMessage
    ensures delivered == 0 ==> r.phase == c.phase
    ensures r.draft.reportType == Some(SuggestionLabel)
    ensures r.draft.category == Some("suggestion")
  {
    AfterPrompt(c, Draft(Some("suggestion"), Some(SuggestionLabel)), delivered)
  }

  /** `feedback`: fixes the type, edits the prompt in, and waits for the text. */
  function Feedback(c: Conversation, delivered: nat): (r: Conversation)
    ensures r.phase == WaitingForMessage <==> delivered >= 1 || c.phase == WaitingForMessage
    ensures delivered == 0 ==> r.phase == c.phase
    ensures r.draft.reportType == Some(FeedbackLabel)
    ensures r.draft.category == Some("feedback")
  {
    AfterPrompt(c, Draft(Some("feedback"), Some(FeedbackLabel)), delivered)
  }

  /** `select_report_type`: stores the looked-up label, which is `None` for any
      `type_*` code outside the map, keeps the category, edits the prompt in, and
      waits for the text. */
  function SelectReportType(c: Conversation, data: string, delivered: nat): (r: Conversation)
    requires StartsWith(data, "type_")
    ensures r.phase == WaitingForMessage <==> delivered >= 1 || c.phase == WaitingForMessage
    ensures delivered == 0 ==> r.phase == c.phase
    ensures r.draft.category == c.draft.category
    ensures r.draft.reportType.Some? <==> data == "type_facility" || data == "type_education" || data == "type_staff"
    ensures r.draft.reportType.Some? ==> TypeCode(r.draft.reportType.value) == Some(data)
  {
    AfterPrompt(c, c.draft.(reportType := TypeLabel(data)), delivered)
  }

  /** `cancel_report` */
  function CancelReport(c: Conversation): (r: Conversation)
    ensures r.phase == Idle && r.draft.reportType.None? && r.draft.category.None?
  {
    Cleared
  }

  /** `back_to_main` */
  function BackToMain(c: Conversation): (r: Conversation)
    ensures r.phase == Idle && r.draft.reportType.None? && r.draft.category.None?
  {
    Cleared
  }

  // ---------------------------------------------------------------- submitting

  datatype SubmitOutcome =
    | InsertFailed       // `save_report` raised (a `NULL` type or text); nothing was answered
    | Submitted(id: int)
    | StartMenu          // `cmd_start` answered with the main menu
    | OutsideConversation  // no handler of the reporter's conversation takes the message

  datatype SubmitResult = SubmitResult(store: Store, conv: Conversation, outcome: SubmitOutcome, sent: seq<Notice>)

  /** `process_report_message`: saves the report first, then answers the reporter,
      then posts to the administrators' group, and only then clears the state. A
      send that raises leaves the report saved and the conversation as it was. A
      message without text (a photo) or a draft without a type makes the `INSERT`
      fail; the id the sequence handed out is lost. */
  function ProcessReportMessage(s: Store, c: Conversation, callerId: int, callerName: string,
                                text: Option<string>, now: int, delivered: nat): (r: SubmitResult)
    requires Valid(s)
    requires c.phase == WaitingForMessage
    ensures Valid(r.store)
    ensures r.outcome.InsertFailed? || r.outcome.Submitted?
    ensures r.store.nextId == s.nextId + 1
    ensures r.outcome.Submitted? <==> c.draft.reportType.Some? && text.Some?
    ensures r.outcome.InsertFailed? ==> r.store.rows == s.rows && r.conv == c && r.sent == []
    ensures r.outcome.Submitted? ==>
      && r.outcome.id !in s.rows
      && (forall k :: k in s.rows ==> k < r.outcome.id)
      && r.outcome.id in r.store.rows
      && OthersUnchanged(s, r.store, r.outcome.id)
      && r.store.rows[r.outcome.id].userId == callerId
      && r.store.rows[r.outcome.id].userName == callerName
      && Some(r.store.rows[r.outcome.id].reportType) == c.draft.reportType
      && Some(r.store.rows[r.outcome.id].reportText) == text
      && r.store.rows[r.outcome.id].createdAt == now
      && Unclaimed(r.store.rows[r.outcome.id])
      && r.sent == Deliver([Notice(Person(callerId), Receipt, r.outcome.id),
                            Notice(AdminGroup, NewReport, r.outcome.id)], delivered)
      && (r.conv == Cleared <==> delivered >= 2)
      && (delivered < 2 ==> r.conv == c)
    ensures forall n :: n in r.sent ==> n.reportId in r.store.rows
  {
    match SaveReport(s, callerId, callerName, c.draft.reportType, text, now)
    case NotNullViolation(t) => SubmitResult(t, c, InsertFailed, [])
    case Saved(t, id) =>
      var planned := [Notice(Person(callerId), Receipt, id), Notice(AdminGroup, NewReport, id)];
      var sent := Deliver(planned, delivered);
      assert forall n :: n in sent ==> n in planned;
      SubmitResult(t, if delivered >= 2 then Cleared else c, Submitted(id), sent)
  }

  /** aiogram's `Command("start")` filter: the first word of the text is `/start`,
      so the text is `/start` alone or followed by whitespace. */
  predicate IsStartCommand(text: Option<string>) {
    && text.Some? && StartsWith(text.value, "/start")
    && (|text.value| == 6 || IsSpace(text.value[6]))
  }

  /** A message from the reporter. `cmd_start` is registered first and has no state
      filter, so `/start` gets the menu in every state and changes nothing. Any other
      message reaches `process_report_message` only in the `waiting_for_message`
      state; in the other states no handler of the reporter's conversation takes it. */
  function OnMessage(s: Store, c: Conversation, callerId: int, callerName: string,
                     text: Option<string>, now: int, delivered: nat): (r: SubmitResult)
    requires Valid(s)
    ensures Valid(r.store)
    ensures r.outcome.StartMenu? <==> IsStartCommand(text)
    ensures r.outcome.OutsideConversation? <==> !IsStartCommand(text) && c.phase != WaitingForMessage
    ensures r.outcome.StartMenu? || r.outcome.OutsideConversation? ==>
      r.store == s && r.conv == c && r.sent == []
    ensures r.outcome.Submitted? <==>
      !IsStartCommand(text) && c.phase == WaitingForMessage && c.draft.reportType.Some? && text.Some?
    ensures r.outcome.InsertFailed? ==> r.store.rows == s.rows && r.store.nextId == s.nextId + 1
    ensures |r.store.rows| <= |s.rows| + 1
    ensures !IsStartCommand(text) && c.phase == WaitingForMessage ==>
      r == ProcessReportMessage(s, c, callerId, callerName, text, now, delivered)
  {
    if IsStartCommand(text) then
      SubmitResult(s, c, StartMenu, [])
    else if c.phase == WaitingForMessage then
      var r := ProcessReportMessage(s, c, callerId, callerName, text, now, delivered);
      assert r.outcome.Submitted? ==> r.store.rows.Keys == s.rows.Keys + {r.outcome.id};
      r
    else
      SubmitResult(s, c, OutsideConversation, [])
  }

  /** After cancelling or going back to the menu, the next message creates no report. */
  lemma CancelCreatesNothing(s: Store, c: Conversation, callerId: int, callerName: string,
                             text: Option<string>, now: int, delivered: nat)
    requires Valid(s)
    ensures OnMessage(s, CancelReport(c), callerId, callerName, text, now, delivered).store == s
    ensures OnMessage(s, BackToMain(c), callerId, callerName, text, now, delivered).store == s
  {
  }

  /** A text message after an unknown `type_*` code leaves the rows unchanged and
      the conversation as it was: the insert fails when the prompt was edited in,
      and no handler takes the message when it was not. */
  lemma UnknownTypeCannotSubmit(s: Store, c: Conversation, data: string, edited: nat, callerId: int,
                                callerName: string, text: string, now: int, delivered: nat)
    requires Valid(s)
    requires StartsWith(data, "type_")
    requires data != "type_facility" && data != "type_education" && data != "type_staff"
    ensures OnMessage(s, SelectReportType(c, data, edited), callerId, callerName, Some(text), now, delivered).store.rows == s.rows
    ensures OnMessage(s, SelectReportType(c, data, edited), callerId, callerName, Some(text), now, delivered).conv
            == SelectReportType(c, data, edited)
  {
  }

  /** When the prompt edit of `suggestion` raises outside a waiting conversation, the
      state is never set, so the next message (other than `/start`) reaches no
      handler and creates nothing, although the draft already holds the suggestion. */
  lemma FailedPromptSubmitsNothing(s: Store, c: Conversation, callerId: int, callerName: string,
                                   text: Option<string>, now: int, delivered: nat)
    requires Valid(s)
    requires c.phase != WaitingForMessage
    requires !IsStartCommand(text)
    ensures var r := OnMessage(s, Suggestion(c, 0), callerId, callerName, text, now, delivered);
      && r.outcome == OutsideConversation && r.store == s
      && r.conv.draft.reportType == Some(SuggestionLabel)
  {
  }

  /** A suggestion whose prompt was edited in, followed by a text message other than
      `/start`, stores a pending report of type "suggestion" with that text. */
  lemma SuggestionSubmits(s: Store, c: Conversation, edited: nat, callerId: int, callerName: string,
                          text: string, now: int, delivered: nat)
    requires Valid(s)
    requires edited >= 1
    requires !IsStartCommand(Some(text))
    ensures var r := OnMessage(s, Suggestion(c, edited), callerId, callerName, Some(text), now, delivered);
      && r.outcome.Submitted?
      && r.outcome.id in r.store.rows
      && r.store.rows[r.outcome.id].reportType == SuggestionLabel
      && r.store.rows[r.outcome.id].reportText == text
      && r.store.rows[r.outcome.id].status == Pending
  {
  }

  // ---------------------------------------------------------------- reading back

  /** The status words of `my_reports`, with the fallback for anything else. */
  function UserStatusLabel(st: Status): (r: string)
    ensures r == "Неизвестно" <==> !Recognised(st)
  {
    match st
    case Pending => "Ожидает"
    case InProgress => "В работе"
    case Completed => "Выполнено"
    case Unrecognised(_) => "Неизвестно"
  }

  /** One entry of the `my_reports` list. */
  datatype ReportLine = ReportLine(id: int, reportType: string, statusLabel: string,
                                   responsibleName: Option<string>, completedAt: Option<int>)

  datatype MyReportsView = NoReports | Lines(lines: seq<ReportLine>)

  const MyReportsCap: nat := 10

  function LineOf(x: Report): ReportLine {
    ReportLine(x.id, x.reportType, UserStatusLabel(x.status), x.responsibleName, x.completedAt)
  }

  /** The lines of `my_reports`: between one and ten of the caller's own reports,
      each shown once and newest first, with none of the caller's reports left out
      newer than one shown, and all of them when fewer than ten are shown. */
  ghost predicate OwnNewestLines(s: Store, callerId: int, lines: seq<ReportLine>) {
    && 0 < |lines| <= MyReportsCap
    && (forall i :: 0 <= i < |lines| ==>
          && lines[i].id in s.rows
          && s.rows[lines[i].id].userId == callerId
          && lines[i] == LineOf(s.rows[lines[i].id]))
    && (forall i, j :: 0 <= i < j < |lines| ==>
          lines[i].id != lines[j].id
          && s.rows[lines[i].id].createdAt >= s.rows[lines[j].id].createdAt)
    && (forall i, k :: 0 <= i < |lines| && k in s.rows && s.rows[k].userId == callerId
                       && (forall j :: 0 <= j < |lines| ==> lines[j].id != k)
                       ==> s.rows[k].createdAt <= s.rows[lines[i].id].createdAt)
    && (|lines| < MyReportsCap ==>
          forall k :: k in s.rows && s.rows[k].userId == callerId ==>
            exists i :: 0 <= i < |lines| && lines[i].id == k)
  }

  /** `my_reports`: the caller's ten newest reports, or an alert when there are none. */
  function MyReports(s: Store, callerId: int): (r: MyReportsView)
    requires Valid(s)
    ensures r.NoReports? <==> forall k :: k in s.rows ==> s.rows[k].userId != callerId
    ensures r.Lines? ==> OwnNewestLines(s, callerId, r.lines)
  {
    var all := GetUserReports(s, callerId);
    if |all| == 0 then
      forall k | k in s.rows ensures s.rows[k].userId != callerId {
        assert multiset(all)[s.rows[k]] == 0;
      }
      NoReports
    else
      assert all[0] in multiset(all);
      var shown := NewestMatching(s, (x: Report) => x.userId == callerId, MyReportsCap);
      ShownLines(s, callerId, shown);
      Lines(LinesOf(shown))
  }

  function LinesOf(shown: seq<Report>): (lines: seq<ReportLine>)
    ensures |lines| == |shown|
    ensures forall i :: 0 <= i < |shown| ==> lines[i] == LineOf(shown[i])
  {
    seq(|shown|, i requires 0 <= i < |shown| => LineOf(shown[i]))
  }

  /** What the `my_reports` lines say, given the rows chosen for them. */
  lemma ShownLines(s: Store, callerId: int, shown: seq<Report>)
    requires Valid(s)
    requires forall x :: multiset(shown)[x] <= if Stored(s, x) && x.userId == callerId then 1 else 0
    requires NewestFirst(shown)
    requires 0 < |shown| <= MyReportsCap
    requires |shown| < MyReportsCap ==> forall y :: Stored(s, y) && y.userId == callerId ==> y in shown
    requires forall x, y :: x in shown && Stored(s, y) && y.userId == callerId && y !in shown
                            ==> y.createdAt <= x.createdAt
    ensures OwnNewestLines(s, callerId, LinesOf(shown))
  {
    ShownStored(s, callerId, shown);
    forall x ensures multiset(shown)[x] <= 1 {}
    NoRepeats(shown);
    LinesComplete(s, callerId, shown);
    LinesLeftOutOlder(s, callerId, shown);
  }

  /** With fewer than ten lines, every report of the caller has one. */
  lemma LinesComplete(s: Store, callerId: int, shown: seq<Report>)
    requires Valid(s)
    requires |shown| < MyReportsCap ==> forall y :: Stored(s, y) && y.userId == callerId ==> y in shown
    ensures var lines := LinesOf(shown);
      |lines| < MyReportsCap ==>
        forall k :: k in s.rows && s.rows[k].userId == callerId ==>
          exists i :: 0 <= i < |lines| && lines[i].id == k
  {
    var lines := LinesOf(shown);
    forall k | |shown| < MyReportsCap && k in s.rows && s.rows[k].userId == callerId
      ensures exists i :: 0 <= i < |lines| && lines[i].id == k
    {
      var y := s.rows[k];
      assert Stored(s, y);
      var i :| 0 <= i < |shown| && shown[i] == y;
      assert lines[i].id == k;
    }
  }

  /** The newest-ten clause of `OwnNewestLines`, carried from the rows to their lines. */
  lemma LinesLeftOutOlder(s: Store, callerId: int, shown: seq<Report>)
    requires Valid(s)
    requires forall i :: 0 <= i < |shown| ==> Stored(s, shown[i])
    requires forall x, y :: x in shown && Stored(s, y) && y.userId == callerId && y !in shown
                            ==> y.createdAt <= x.createdAt
    ensures var lines := LinesOf(shown);
      forall i, k :: 0 <= i < |lines| && lines[i].id in s.rows && k in s.rows
                     && s.rows[k].userId == callerId
                     && (forall j :: 0 <= j < |lines| ==> lines[j].id != k)
                     ==> s.rows[k].createdAt <= s.rows[lines[i].id].createdAt
  {
    var lines := LinesOf(shown);
    LeftOutOlder(s, callerId, shown);
    assert forall j :: 0 <= j < |lines| ==> lines[j].id == shown[j].id;
  }

  /** A report of the caller that is not shown is no newer than any that is. */
  lemma LeftOutOlder(s: Store, callerId: int, shown: seq<Report>)
    requires Valid(s)
    requires forall x, y :: x in shown && Stored(s, y) && y.userId == callerId && y !in shown
                            ==> y.createdAt <= x.createdAt
    ensures forall i, k :: 0 <= i < |shown| && k in s.rows && s.rows[k].userId == callerId
                           && (forall j :: 0 <= j < |shown| ==> shown[j].id != k)
                           ==> s.rows[k].createdAt <= shown[i].createdAt
  {
    forall i, k | 0 <= i < |shown| && k in s.rows && s.rows[k].userId == callerId
                  && (forall j :: 0 <= j < |shown| ==> shown[j].id != k)
      ensures s.rows[k].createdAt <= shown[i].createdAt
    {
      var y := s.rows[k];
      assert Stored(s, y);
      assert y !in shown;
      assert shown[i] in shown;
    }
  }

  lemma ShownStored(s: Store, callerId: int, shown: seq<Report>)
    requires forall x :: multiset(shown)[x] <= if Stored(s, x) && x.userId == callerId then 1 else 0
    ensures forall i :: 0 <= i < |shown| ==> Stored(s, shown[i]) && shown[i].userId == callerId
  {
    forall i | 0 <= i < |shown| ensures Stored(s, shown[i]) && shown[i].userId == callerId {
      assert multiset(shown)[shown[i]] > 0;
    }
  }

  datatype DetailsReply = DetailsNotFound | NotYours | Details(report: Report)

  /** The checks of `view_report_details` for a given id: the report must exist and
      belong to the caller. */
  function ViewReportDetails(s: Store, id: int, callerId: int): (r: DetailsReply)
    requires Valid(s)
    ensures r.DetailsNotFound? <==> id !in s.rows
    ensures r.NotYours? <==> id in s.rows && s.rows[id].userId != callerId
    ensures r.Details? ==> Stored(s, r.report) && r.report.id == id && r.report.userId == callerId
  {
    match GetReport(s, id)
    case None => DetailsNotFound
    case Some(report) => if report.userId != callerId then NotYours else Details(report)
  }
}
