/** Reminder planning for a newly created task: either one reminder a fixed number of hours
    before the due time, or the instants an external suggestion service proposes, with a
    fixed fallback when that service fails. */
module Planner {
  import opened Wrappers
  import opened Tasks

  /** The body of `POST /api/tasks`. `dueTime` is the instant `due_time` denotes.
      `dueOffset` is its UTC offset in microseconds when the client sent one (an aware
      `datetime`), and `None` when it did not (a naive `datetime`, read as UTC). */
  datatype TaskRequest = TaskRequest(
    title: string,
    dueTime: Time,
    dueOffset: Option<int>,
    priority: string,
    singleReminder: bool,
    hoursBefore: Option<int>)

  const MicrosPerDay: int := 24 * MicrosPerHour

  /** A Python `timezone` offset lies strictly between minus and plus one day. */
  predicate ValidOffset(offset: int) {
    -MicrosPerDay < offset < MicrosPerDay
  }

  /** The offset of the due time's own clock from UTC; a naive due time has none. */
  function Offset(req: TaskRequest): int {
    req.dueOffset.GetOr(0)
  }

  /** The reading of the due time's own clock, in the unit of `Time`. Python keeps an aware
      `datetime` as these wall-clock fields plus the offset, and checks its range on them. */
  function WallClock(req: TaskRequest): int {
    req.dueTime + Offset(req)
  }

  /** The due times a request can carry: a valid offset and a wall clock within
      `datetime.min .. datetime.max`. With an offset, the instant itself may lie up to a day
      outside that range. */
  predicate ValidRequest(req: TaskRequest) {
    (req.dueOffset.Some? ==> ValidOffset(req.dueOffset.value)) && ValidTime(WallClock(req))
  }

  /** Exceptions planning can raise: `timedelta(hours=None)` is a `TypeError`, a reminder
      before `datetime.min` or after `datetime.max` an `OverflowError`, and subtracting the
      aware creation instant from a naive due time a `TypeError`. */
  datatype PlanError = MissingLeadTime | TimeOverflow | NaiveMinusAware

  /** `n / 4` rounded to the nearest integer, ties to the even one. CPython multiplies a
      `timedelta` by a float through the float's exact ratio (0.75 is 3/4) and rounds the
      quotient this way to whole microseconds. */
  function QuarterRoundHalfEven(n: int): (q: int)
    ensures -2 <= n - 4 * q <= 2
    ensures (n - 4 * q == 2 || n - 4 * q == -2) ==> q % 2 == 0
  {
    var q0, r := n / 4, n % 4;
    if 2 * r > 4 || (2 * r == 4 && q0 % 2 == 1) then q0 + 1 else q0
  }

  /** The fallback instant `created + (due - created) * 0.75`. The float 0.75 is exactly 3/4,
      so the offset is three quarters of the span rounded half-to-even to a microsecond. */
  function FallbackInstant(created: Time, due: Time): (t: Time)
    ensures -2 <= 4 * (t - created) - 3 * (due - created) <= 2
    ensures created <= due ==> created <= t <= due
    ensures due <= created ==> due <= t <= created
  {
    created + QuarterRoundHalfEven(3 * (due - created))
  }

  /** A span of at least three microseconds puts the fallback strictly between creation and
      due time. */
  lemma FallbackStrictlyBetween(created: Time, due: Time)
    requires created + 3 <= due
    ensures created < FallbackInstant(created, due) < due
  {
  }

  /** With a span of one or two microseconds, rounding puts the fallback on the due time
      itself. */
  lemma FallbackOnTinySpan(created: Time, due: Time)
    requires created < due < created + 3
    ensures FallbackInstant(created, due) == due
  {
    assert due == created + 1 || due == created + 2;
  }

  /** `due_time - timedelta(hours=hours)` for a due time at instant `due` whose clock is
      `offset` ahead of UTC. The subtraction moves the wall clock and keeps the offset, and it
      raises once the wall clock leaves `datetime`'s range. */
  function LeadTimeInstant(due: Time, offset: int, hours: int): (r: Result<Time, PlanError>)
    ensures r.Success? <==> ValidTime(due + offset - hours * MicrosPerHour)
    ensures r.Success? ==> r.value + hours * MicrosPerHour == due
    ensures r.Failure? ==> r.error == TimeOverflow
  {
    var t := due - hours * MicrosPerHour;
    if ValidTime(t + offset) then Success(t) else Failure(TimeOverflow)
  }

  /** The reminder instants `create_task` inserts, in insertion order. `suggestion` is what the
      suggestion service yields: `None` when the call, the JSON decoding or the timestamp
      parsing raises, otherwise the parsed instants as returned. `now` is the creation
      instant, an aware UTC `datetime`: the fallback is computed on its clock, so it raises
      when it leaves `datetime`'s range in UTC. */
  function PlanReminders(req: TaskRequest, now: Time, suggestion: Option<seq<Time>>): (r: Result<seq<Time>, PlanError>)
    requires ValidRequest(req) && ValidTime(now)
    ensures req.singleReminder ==>
      && (req.hoursBefore.None? ==> r == Failure(MissingLeadTime))
      && (req.hoursBefore.Some? && r.Success? ==>
            |r.value| == 1 && ValidTime(r.value[0] + Offset(req))
            && r.value[0] + req.hoursBefore.value * MicrosPerHour == req.dueTime)
      && (req.hoursBefore.Some? && r.Failure? ==> r.error == TimeOverflow)
    ensures !req.singleReminder && suggestion.Some? ==> r == Success(suggestion.value)
    ensures !req.singleReminder && suggestion.None? ==>
      && (r.Success? <==> req.dueOffset.Some? && ValidTime(FallbackInstant(now, req.dueTime)))
      && (r.Failure? && req.dueOffset.None? ==> r.error == NaiveMinusAware)
      && (r.Failure? && req.dueOffset.Some? ==> r.error == TimeOverflow)
      && (r.Success? ==> |r.value| == 1 && r.value[0] == FallbackInstant(now, req.dueTime))
  {
    if req.singleReminder then
      match req.hoursBefore
      case None => Failure(MissingLeadTime)
      case Some(h) =>
        match LeadTimeInstant(req.dueTime, Offset(req), h)
        case Success(t) => Success([t])
        case Failure(e) => Failure(e)
    else
      match suggestion
      case Some(times) => Success(times)
      case None =>
        if req.dueOffset.None? then Failure(NaiveMinusAware)
        else
          var t := FallbackInstant(now, req.dueTime);
          if ValidTime(t) then Success([t]) else Failure(TimeOverflow)
  }

  /** A single-reminder plan fails exactly when the lead time is missing or pushes the due
      time's wall clock out of range; otherwise it is the one instant that many hours before
      the due time. */
  lemma SingleReminderPlan(req: TaskRequest, now: Time, suggestion: Option<seq<Time>>)
    requires ValidRequest(req) && ValidTime(now)
    requires req.singleReminder
    ensures PlanReminders(req, now, suggestion).Success? <==>
      req.hoursBefore.Some? && ValidTime(WallClock(req) - req.hoursBefore.value * MicrosPerHour)
    ensures PlanReminders(req, now, suggestion).Success? ==>
      PlanReminders(req, now, suggestion).value == [req.dueTime - req.hoursBefore.value * MicrosPerHour]
  {
  }

  /** A lead time that keeps the wall clock in range plans exactly one instant, that many
      hours before the due time. */
  lemma SingleLeadTimePlan(req: TaskRequest, now: Time, suggestion: Option<seq<Time>>, h: int)
    requires ValidRequest(req) && ValidTime(now)
    requires req.singleReminder && req.hoursBefore == Some(h)
    requires ValidTime(WallClock(req) - h * MicrosPerHour)
    ensures PlanReminders(req, now, suggestion) == Success([req.dueTime - h * MicrosPerHour])
  {
    SingleReminderPlan(req, now, suggestion);
  }

  /** The fallback can only leave `datetime`'s range when the due instant itself lies outside
      it, which an offset allows near `datetime.min` and `datetime.max`. */
  lemma FallbackInRange(created: Time, due: Time)
    requires ValidTime(created) && ValidTime(due)
    ensures ValidTime(FallbackInstant(created, due))
  {
  }

  /** An aware due time shortly after `datetime.min` on a clock ahead of UTC denotes an instant
      before it; a lead time may still bring its wall clock back into range. */
  lemma WallClockDecidesLeadTime()
    ensures var req := TaskRequest("t", 23 * MicrosPerHour, Some(6 * MicrosPerHour), "High", true, Some(24));
      && ValidRequest(req)
      && PlanReminders(req, 0, None) == Success([-MicrosPerHour])
  {
  }
}
