/** The hub's clock service (TimeManager): a reference instant, the active
    zone, and a once-per-second handler that emits a heartbeat and detects
    minute and date edges. The clock is injected: every operation that reads
    the current time takes the reading `now`, in UTC seconds. */
module TimeManagement {
  import opened Calendar
  import opened TimeZones

  /** The notifications the service emits. */
  datatype Event =
    | Tick                    // the heartbeat, once per timeout
    | TimeChanged(time: int)  // a minute edge, with a local time of day
    | DateChanged(date: int)  // a date edge, with a local calendar day
  {
    function Kind(): EventKind {
      match this
      case Tick => TickKind
      case TimeChanged(_) => TimeChangedKind
      case DateChanged(_) => DateChangedKind
    }
  }

  /** The kinds of notification, numbered in the order one timeout emits them. */
  datatype EventKind = TickKind | TimeChangedKind | DateChangedKind {
    function Rank(): int {
      match this
      case TickKind => 0
      case TimeChangedKind => 1
      case DateChangedKind => 2
    }
  }

  /** The number of notifications of one kind in a sequence of them. */
  function Count(events: seq<Event>, kind: EventKind): (n: nat)
    ensures n <= |events|
    ensures n == 0 <==> forall i :: 0 <= i < |events| ==> events[i].Kind() != kind
  {
    if events == [] then 0
    else (if events[0].Kind() == kind then 1 else 0) + Count(events[1..], kind)
  }

  /** The effect of timeouts: the reference instant afterwards and the
      notifications, in the order they are emitted. */
  datatype Outcome = Outcome(reference: int, events: seq<Event>)

  /** The minute test of the tick handler: the minute field of the reference,
      read in UTC, against the minute field of now read in the zone. */
  predicate MinuteEdge(reference: int, zone: TimeZone, now: int) {
    FromSeconds(reference).Minute() != Project(now, zone).Minute()
  }

  /** The date test of the tick handler: the day of the reference, read in
      UTC, against the day of now read in the zone. */
  predicate DateEdge(reference: int, zone: TimeZone, now: int) {
    FromSeconds(reference).date != Project(now, zone).date
  }

  /** One timeout in the order the handler runs: the heartbeat; then, on a
      minute edge, the reference becomes now and the local time is emitted;
      then the date test against the possibly updated reference, emitting the
      reference's local day. */
  function Step(reference: int, zone: TimeZone, now: int): (o: Outcome) {
    var updated := if MinuteEdge(reference, zone, now) then now else reference;
    var timeEvents := if MinuteEdge(reference, zone, now) then [TimeChanged(Project(updated, zone).time)] else [];
    var dateEvents := if DateEdge(updated, zone, now) then [DateChanged(Project(updated, zone).date)] else [];
    Outcome(updated, [Tick] + timeEvents + dateEvents)
  }

  /** A run of timeouts at the given clock readings, in order, with the zone
      left alone: the final reference and every notification emitted. */
  function Run(reference: int, zone: TimeZone, readings: seq<int>): (o: Outcome)
    decreases |readings|
  {
    if readings == [] then Outcome(reference, [])
    else
      var first := Step(reference, zone, readings[0]);
      var rest := Run(first.reference, zone, readings[1..]);
      Outcome(rest.reference, first.events + rest.events)
  }

  class TimeManager {
    /** The host's zone database. */
    const zones: ZoneDatabase
    /** m_dateTime: the reference instant, in UTC. */
    var dateTime: int
    /** m_timeZone: the active zone. */
    var timeZone: TimeZone

    /** The active zone is always a zone the database knows. */
    ghost predicate Valid()
      reads this
    {
      zones.Valid() && zones.IsValid(timeZone.id) && timeZone == zones.Zone(timeZone.id)
    }

    /** The reference starts at the construction-time UTC instant and the
        zone is chosen as setTimeZone chooses it. */
    constructor (zones: ZoneDatabase, timeZone: ZoneId, now: int)
      requires zones.Valid()
      ensures Valid()
      ensures this.zones == zones && dateTime == now
      ensures this.timeZone == zones.Resolve(timeZone)
    {
      this.zones := zones;
      dateTime := now;
      this.timeZone := zones.SystemZone();
      new;
      SetTimeZone(timeZone);
    }

    /** The identifier of the active zone: always a known one, naming the
        active zone. */
    function TimeZoneId(): (id: ZoneId)
      reads this
      requires Valid()
      ensures zones.IsValid(id) && zones.Zone(id) == timeZone
    {
      timeZone.id
    }

    /** Makes the named zone active, or the host's own zone when the name is
        unknown. The reference instant is left alone. */
    method SetTimeZone(id: ZoneId)
      requires zones.Valid()
      modifies this`timeZone
      ensures Valid()
      ensures timeZone == zones.Resolve(id)
    {
      if !zones.IsValid(id) {
        timeZone := zones.SystemZone();
      } else {
        timeZone := zones.Zone(id);
      }
    }

    /** Now in the active zone: the day and time of day that add up to now
        shifted by the zone's offset. */
    function CurrentDateTime(now: int): (r: DateTime)
      reads this
      ensures r.Valid() && ToSeconds(r) == now + timeZone.offset
    {
      Project(now, timeZone)
    }

    /** The local time of day of now: the seconds since the last local midnight. */
    function CurrentTime(now: int): (t: int)
      reads this
      ensures 0 <= t < SecondsPerDay
      ensures (now + timeZone.offset - t) % SecondsPerDay == 0
    {
      Project(now, timeZone).time
    }

    /** The local day of now: the day whose span holds now shifted by the
        zone's offset. */
    function CurrentDate(now: int): (d: int)
      reads this
      ensures d * SecondsPerDay <= now + timeZone.offset < d * SecondsPerDay + SecondsPerDay
    {
      Project(now, timeZone).date
    }

    /** The timer handler, with the clock reading passed in. It returns the
        notifications in the order it emits them; the new reference and the
        notifications are those of Step, and the zone is not touched. */
    method GuhTimeout(now: int) returns (emitted: seq<Event>)
      requires Valid()
      modifies this`dateTime
      ensures Valid()
      ensures Outcome(dateTime, emitted) == Step(old(dateTime), timeZone, now)
    {
      emitted := [Tick];
      var current := Project(now, timeZone);
      if FromSeconds(dateTime).Minute() != current.Minute() {
        dateTime := now;
        emitted := emitted + [TimeChanged(Project(dateTime, timeZone).time)];
      }
      if FromSeconds(dateTime).date != current.date {
        emitted := emitted + [DateChanged(Project(dateTime, timeZone).date)];
      }
    }
  }
}
