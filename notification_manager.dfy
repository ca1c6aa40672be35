/** The reminder rule of `NotficationManager.scheduleAlert`: join the due
    date and time, look the alert option up, and decide whether and when a
    single one-shot notification is requested. The submission itself
    (`requestingNotification`) is a call into the operating system and is
    represented only by the request the rule would submit. */
module NotificationManager {
  import opened Wrappers
  import opened Calendar

  const ReminderTitle: string := "iShedule Reminder"

  datatype Content = Content(title: string, body: string)

  /** A notification request: its content and its fire time in seconds. */
  datatype Request = Request(content: Content, fireAt: int)

  /** The guard of one `switch` arm and the interval the arm subtracts. */
  datatype Lead = Lead(threshold: int, offset: int)

  /** The alert options offered by the task screens, in picker order. */
  const AlertOptions: seq<string> := ["None", "5 Seconds before", "5 minutes before",
    "10 minutes before", "15 minutes before", "30 minutes before", "1 hour before", "2 hours before"]

  /** The notification text, built from the task name and the already
      formatted date and time strings. */
  function ReminderContent(taskName: string, eventDate: string, eventTime: string): (c: Content)
    ensures c.title == ReminderTitle
    ensures |c.body| == |taskName| + |eventDate| + |eventTime| + 23
    ensures c.body[..15] == "Upcoming Task: " && c.body[15..15 + |taskName|] == taskName
  {
    Content(ReminderTitle, "Upcoming Task: " + taskName + " on " + eventDate + " at " + eventTime)
  }

  /** Two reminders for the same date and time carry the same body only if
      they are for the same task name. */
  lemma {:induction false} BodyDeterminesTaskName(n1: string, n2: string, eventDate: string, eventTime: string)
    requires ReminderContent(n1, eventDate, eventTime).body == ReminderContent(n2, eventDate, eventTime).body
    ensures n1 == n2
  {
    var b := ReminderContent(n1, eventDate, eventTime).body;
    assert |n1| == |n2|;
    assert n1 == b[15..15 + |n1|];
  }

  /** The `switch` on the option string, exactly as written: each arm's
      guard and the interval it subtracts. */
  function ArmFor(option: string): (r: Option<Lead>)
    ensures r.Some? ==> option in AlertOptions && option != "None"
    ensures r.Some? ==> 0 < r.value.offset <= r.value.threshold
  {
    match option
    case "5 Seconds before" => Some(Lead(5, 5))
    case "5 minutes before" => Some(Lead(5 * 60, 5 * 60))
    case "10 minutes before" => Some(Lead(10 * 60, 10 * 60))
    case "15 minutes before" => Some(Lead(15 * 60, 10 * 60))
    case "30 minutes before" => Some(Lead(30 * 60, 30 * 60))
    case "1 hour before" => Some(Lead(60 * 60, 60 * 60))
    case "2 hours before" => Some(Lead(2 * 60 * 60, 2 * 60 * 60))
    case _ => None
  }

  /** The due instant: the date's day at the time's hour and minute. */
  function DueInstant(selectedDate: Moment, selectedTime: Moment): int {
    Instant(JoinDateTime(selectedDate, selectedTime))
  }

  /** `scheduleAlert` as written. `now` is the current time in seconds;
      the result is the request it submits, if any. */
  function ScheduleAlert(taskName: string, eventDate: string, eventTime: string,
                         selectedDate: Moment, selectedTime: Moment,
                         selectedAlertOption: string, now: int): (r: Option<Request>)
    ensures r.Some? ==> r.value.fireAt >= now
    ensures r.Some? ==> r.value.content == ReminderContent(taskName, eventDate, eventTime)
    ensures r.Some? <==> ArmFor(selectedAlertOption).Some?
                         && DueInstant(selectedDate, selectedTime) - now >= ArmFor(selectedAlertOption).value.threshold
  {
    var content := ReminderContent(taskName, eventDate, eventTime);
    var timeDifference := DueInstant(selectedDate, selectedTime) - now;
    match ArmFor(selectedAlertOption)
    case None => None
    case Some(lead) =>
      if timeDifference >= lead.threshold then Some(Request(content, now + (timeDifference - lead.offset)))
      else None
  }

  /** The lead time each option names, in seconds. */
  function LeadSeconds(option: string): (r: Option<int>)
    ensures r.Some? ==> r.value > 0
  {
    match option
    case "5 Seconds before" => Some(5)
    case "5 minutes before" => Some(300)
    case "10 minutes before" => Some(600)
    case "15 minutes before" => Some(900)
    case "30 minutes before" => Some(1800)
    case "1 hour before" => Some(3600)
    case "2 hours before" => Some(7200)
    case _ => None
  }

  /** Every arm except "15 minutes before" guards on and subtracts the lead
      its option names; that arm guards on 15 minutes and subtracts 10. */
  lemma ArmsAgainstLeadTable(option: string)
    ensures ArmFor(option).Some? <==> LeadSeconds(option).Some?
    ensures option != "15 minutes before" && ArmFor(option).Some? ==>
      ArmFor(option).value == Lead(LeadSeconds(option).value, LeadSeconds(option).value)
    ensures option == "15 minutes before" ==> ArmFor(option) == Some(Lead(900, 600))
  {
  }

  /** For every option other than "15 minutes before", a request is made
      exactly when the due instant is at least the lead away, and it fires
      that lead before the due instant. */
  lemma RegularOptionFiresLeadBeforeDue(taskName: string, eventDate: string, eventTime: string,
                                        selectedDate: Moment, selectedTime: Moment,
                                        option: string, now: int)
    requires LeadSeconds(option).Some? && option != "15 minutes before"
    ensures var r := ScheduleAlert(taskName, eventDate, eventTime, selectedDate, selectedTime, option, now);
            var due := DueInstant(selectedDate, selectedTime);
            var lead := LeadSeconds(option).value;
            (r.Some? <==> due - now >= lead) && (r.Some? ==> r.value.fireAt == due - lead)
  {
    ArmsAgainstLeadTable(option);
  }

  /** "15 minutes before" needs 15 minutes of notice but fires 10 minutes
      before the due instant. */
  lemma FifteenMinuteOptionFiresTenMinutesBefore(taskName: string, eventDate: string, eventTime: string,
                                                selectedDate: Moment, selectedTime: Moment, now: int)
    ensures var r := ScheduleAlert(taskName, eventDate, eventTime, selectedDate, selectedTime, "15 minutes before", now);
            var due := DueInstant(selectedDate, selectedTime);
            (r.Some? <==> due - now >= 900) && (r.Some? ==> r.value.fireAt == due - 600)
  {
  }

  /** Matching is exact: "None", any other string, and case variants of
      the offered options schedule nothing. */
  lemma UnknownOptionSchedulesNothing(taskName: string, eventDate: string, eventTime: string,
                                      selectedDate: Moment, selectedTime: Moment,
                                      option: string, now: int)
    requires option !in AlertOptions || option == "None"
    ensures ScheduleAlert(taskName, eventDate, eventTime, selectedDate, selectedTime, option, now).None?
  {
  }

  lemma CaseVariantSchedulesNothing(taskName: string, eventDate: string, eventTime: string,
                                    selectedDate: Moment, selectedTime: Moment, now: int)
    ensures ScheduleAlert(taskName, eventDate, eventTime, selectedDate, selectedTime, "5 Minutes Before", now).None?
  {
    UnknownOptionSchedulesNothing(taskName, eventDate, eventTime, selectedDate, selectedTime, "5 Minutes Before", now);
  }

  /** The input that shows the "15 minutes before" defect: a task due in
      exactly 15 minutes is reminded 10 minutes before it, not 15. */
  lemma FifteenMinuteDefectWitness()
    ensures var date := Moment(100, 0, 0, 0);
            var time := Moment(0, 10, 15, 0);
            var now := Instant(Moment(100, 10, 0, 0));
            var r := ScheduleAlert("Quiz", "10/04/2023", "10:15 AM", date, time, "15 minutes before", now);
            r.Some? && r.value.fireAt == DueInstant(date, time) - 600
            && r.value.fireAt != DueInstant(date, time) - LeadSeconds("15 minutes before").value
  {
  }

  /** The rule with one table of option leads, as the duplicated literals
      evidently intend. */
  function ScheduleAlertIntended(taskName: string, eventDate: string, eventTime: string,
                                 selectedDate: Moment, selectedTime: Moment,
                                 selectedAlertOption: string, now: int): (r: Option<Request>)
    ensures r.Some? ==> r.value.fireAt >= now
  {
    var timeDifference := DueInstant(selectedDate, selectedTime) - now;
    match LeadSeconds(selectedAlertOption)
    case None => None
    case Some(lead) =>
      if timeDifference >= lead
      then Some(Request(ReminderContent(taskName, eventDate, eventTime), now + (timeDifference - lead)))
      else None
  }

  /** For every option, the intended rule requests a reminder exactly when
      the due instant is at least the lead away, at the due instant minus
      the lead; it agrees with the written rule on every option except
      "15 minutes before". */
  lemma IntendedFiresLeadBeforeDue(taskName: string, eventDate: string, eventTime: string,
                                   selectedDate: Moment, selectedTime: Moment,
                                   option: string, now: int)
    ensures var r := ScheduleAlertIntended(taskName, eventDate, eventTime, selectedDate, selectedTime, option, now);
            var due := DueInstant(selectedDate, selectedTime);
            && (r.Some? <==> LeadSeconds(option).Some? && due - now >= LeadSeconds(option).value)
            && (r.Some? ==> r.value.fireAt == due - LeadSeconds(option).value
                            && r.value.content == ReminderContent(taskName, eventDate, eventTime))
    ensures option != "15 minutes before" ==>
      ScheduleAlertIntended(taskName, eventDate, eventTime, selectedDate, selectedTime, option, now)
      == ScheduleAlert(taskName, eventDate, eventTime, selectedDate, selectedTime, option, now)
  {
    ArmsAgainstLeadTable(option);
  }
}
