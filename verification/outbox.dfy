/**
 * Outgoing chat messages, reduced to who receives them and why. The texts,
 * keyboards and formatting are not modelled.
 */
module Outbox {
  import opened Ordering

  /** The administrators' group chat (`ADMIN_GROUP_ID`) or one person's private chat. */
  datatype Recipient = AdminGroup | Person(userId: int)

  datatype Kind =
    | Receipt                              // "your report #n was accepted", to the reporter
    | NewReport                            // the new report, posted to the administrators' group
    | ClaimShown                           // the group post edited to name who took the report
    | ClaimDetails                         // the full report, sent privately to whoever took it
    | CompletionAck                        // "report #n completed", to the administrator
    | Resolution                           // the administrator's answer, sent to the reporter
    | Reminder(hours: int, minutes: int)   // the scheduler's "no answer for hh:mm" notice

  datatype Notice = Notice(to: Recipient, kind: Kind, reportId: int)

  /** A handler performs its sends in order and the first one that raises ends the
      handler, so what goes out is a prefix of what it meant to send; `delivered`
      is how many sends succeed. */
  function Deliver(planned: seq<Notice>, delivered: nat): (sent: seq<Notice>)
    ensures sent <= planned
    ensures |sent| == if delivered < |planned| then delivered else |planned|
  {
    Take(planned, delivered)
  }

  lemma DeliverCons(n: Notice, rest: seq<Notice>, delivered: nat)
    requires delivered > 0
    ensures Deliver([n] + rest, delivered) == [n] + Deliver(rest, delivered - 1)
  {
  }
}
