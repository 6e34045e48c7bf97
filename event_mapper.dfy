/** The issue-to-event mapper of the webhook handler: a GitLab issue record
    becomes the body of a Google Calendar all-day event, or nothing. */
module EventMapper {
  import opened Wrappers
  import opened Decimal
  import opened CivilDate

  /** A field of the issue record that the mapper subscripts: missing from the
      record, JSON null, or a string. */
  datatype Field = Absent | Null | Text(text: string)

  /** The `object_attributes` of a GitLab issue webhook, already parsed. */
  datatype Issue = Issue(
    id: int,
    iid: int,
    title: string,
    url: string,
    description: Option<string>,
    state: string,
    dueDate: Field,
    closedAt: Field,
    action: Option<string>)

  datatype Source = Source(title: string, url: string)

  /** The calendar event body; `start` and `end` are the `date` of the
      all-day event. */
  datatype CalendarEvent = CalendarEvent(
    start: string,
    end: string,
    description: Option<string>,
    id: int,
    source: Source,
    summary: string,
    colorId: Option<string>)

  /** The exceptions the mapper lets escape: KeyError on a missing field,
      TypeError from `strptime(None)`, ValueError from a `closed_at` that is not
      a valid time in the GitLab form, and the conversion to UTC+9's error. */
  datatype MapError = MissingKey(key: string) | NullTimestamp | BadTimestamp | ZoneFailed(reason: ZoneError)

  const ClosedState := "closed"
  const ClosedColor := "8"
  const SourceTitle := "GitLab"

  function Summary(iid: int, title: string): string {
    "#" + IntToString(iid) + ": " + title
  }

  /** The event for `issue` on the given date. */
  function EventOn(issue: Issue, date: string): CalendarEvent {
    CalendarEvent(
      date, date, issue.description, issue.id, Source(SourceTitle, issue.url),
      Summary(issue.iid, issue.title),
      if issue.state == ClosedState then Some(ClosedColor) else None)
  }

  /** The date of a closed issue: its `closed_at` (UTC) read as a time and
      moved to the calendar date in UTC+9. The source reaches the parse even
      when `closed_at` is null or empty, so those fail rather than skip. */
  function ClosedDate(closedAt: Field): (r: Result<string, MapError>)
    ensures closedAt == Absent ==> r == Failure(MissingKey("closed_at"))
    ensures closedAt == Null ==> r == Failure(NullTimestamp)
    ensures closedAt == Text("") ==> r == Failure(BadTimestamp)
    ensures r.Success? ==> |r.value| == 10
  {
    match closedAt
    case Absent => Failure(MissingKey("closed_at"))
    case Null => Failure(NullTimestamp)
    case Text(raw) =>
      match ParseTimestamp(raw)
      case None => Failure(BadTimestamp)
      case Some(t) =>
        match DateInUtcPlus9(t)
        case Failure(e) => Failure(ZoneFailed(e))
        case Success(d) =>
          NextDayIsNextOrdinal(t.date);
          Success(IsoDate(d))
  }

  /** `create_calendar_body`: the event for an issue, None when an open issue
      has no due date, or the exception the source raises. */
  function CreateCalendarBody(issue: Issue): (r: Result<Option<CalendarEvent>, MapError>)
    // `due_date` is subscripted first, whatever the state
    ensures issue.dueDate == Absent ==> r == Failure(MissingKey("due_date"))
    // an open issue: its due date unchanged, or no event without one
    ensures issue.state != ClosedState && issue.dueDate != Absent ==>
      r.Success? && (r.value.None? <==> issue.dueDate == Null || issue.dueDate == Text(""))
    ensures issue.state != ClosedState && r.Success? && r.value.Some? ==>
      issue.dueDate == Text(r.value.value.start)
    // a closed issue: never skipped; it has an event or the call fails
    ensures issue.state == ClosedState ==> r.Failure? || r.value.Some?
    ensures issue.state == ClosedState && issue.dueDate != Absent ==>
      (r.Failure? <==> ClosedDate(issue.closedAt).Failure?)
    // the fields every event carries
    ensures r.Success? && r.value.Some? ==>
      var e := r.value.value;
      && e.start == e.end
      && e.id == issue.id
      && e.description == issue.description
      && e.source == Source("GitLab", issue.url)
      && e.summary == "#" + IntToString(issue.iid) + ": " + issue.title
      && (e.colorId == Some("8") <==> issue.state == "closed")
      && (e.colorId.None? <==> issue.state != "closed")
  {
    if issue.dueDate == Absent then Failure(MissingKey("due_date"))
    else if issue.state == ClosedState then
      var date :- ClosedDate(issue.closedAt);
      Success(Some(EventOn(issue, date)))
    else
      match issue.dueDate
      case Text(date) => if date == "" then Success(None) else Success(Some(EventOn(issue, date)))
      case _ => Success(None)
  }

  /** A closed issue's event falls on the UTC+9 date of its `closed_at`: the
      UTC date itself, or the next calendar day exactly when the UTC hour is
      15 or later (rolling over month and year ends). Its due date plays no
      part. */
  lemma ClosedIssueDate(issue: Issue, t: Timestamp)
    requires issue.state == "closed" && issue.dueDate != Absent
    requires ValidTimestamp(t) && issue.closedAt == Text(TimestampText(t))
    requires t.date != Date(MinYear, 1, 1) && !(t.date == Date(MaxYear, 12, 31) && t.hour >= 15)
    ensures CreateCalendarBody(issue).Success? && CreateCalendarBody(issue).value.Some?
    ensures
      var e := CreateCalendarBody(issue).value.value;
      exists d: Date ::
        && ValidDate(d)
        && DateFields(e.start) == Some((d, []))
        && Ordinal(d) == Ordinal(t.date) + (if t.hour >= 15 then 1 else 0)
    ensures forall due: Field :: due != Absent ==>
      CreateCalendarBody(issue.(dueDate := due)) == CreateCalendarBody(issue)
  {
    TimestampReadsBack(t);
    DateInUtcPlus9Correct(t);
    var d := DateInUtcPlus9(t).value;
    IsoDateReadsBack(d, []);
    assert IsoDate(d) + [] == IsoDate(d);
  }

  /** A closed issue whose `closed_at` lies on 0001-01-01, or in the last nine
      hours of 9999-12-31, makes the mapper fail with the conversion's error. */
  lemma ClosedAtRangeEdgesFail(issue: Issue, t: Timestamp)
    requires issue.state == "closed" && issue.dueDate != Absent
    requires ValidTimestamp(t) && issue.closedAt == Text(TimestampText(t))
    ensures t.date == Date(MinYear, 1, 1) ==>
      CreateCalendarBody(issue) == Failure(ZoneFailed(ProbeBeforeYear1))
    ensures t.date == Date(MaxYear, 12, 31) && t.hour >= 15 ==>
      CreateCalendarBody(issue) == Failure(ZoneFailed(PastYear9999))
  {
    TimestampReadsBack(t);
    DateInUtcPlus9Correct(t);
  }

  /** A closed issue whose `closed_at` is missing, null or empty makes the
      mapper fail; it is not skipped as an issue without a date would be. */
  lemma ClosedWithoutTimestampFails(issue: Issue)
    requires issue.state == "closed"
    requires issue.closedAt == Absent || issue.closedAt == Null || issue.closedAt == Text("")
    ensures CreateCalendarBody(issue).Failure?
  {
  }
}
