# Clock service and disabled zero-conf capability of the nymea hub

This project models two pieces of the nymea (formerly guh) home-automation
hub server in Dafny and proves properties of the model.

**TimeManager** (`server/time/timemanager.cpp`) is the hub's clock service.
It holds a reference instant `m_dateTime`, which is always in UTC, and an
active time zone `m_timeZone`. A one-second timer runs `guhTimeout`. Each run
emits `tick`. It then emits `timeChanged` when the reference's minute field
differs from the current minute in the zone, and in that case moves the
reference to the current instant. Last, it emits `dateChanged` when the
reference's date differs from the current local date. `setTimeZone` falls
back to the host's own zone when the requested identifier is unknown. The
accessors `currentDateTime`, `currentTime` and `currentDate` read the clock
and project the reading into the active zone.

**PlatformZeroConfController**
(`libnymea/platform/platformzeroconfcontroller.cpp`) is the zero-conf
capability of a platform that has none. It is a hardware resource named
"ZeroConf". It is never available and never enabled, and it ignores
`setEnabled`. It owns one dummy service publisher, created once and then
handed out unchanged.

Files and modules:

- `calendar.dfy`, module `Calendar`: instants as an `int` of UTC seconds. A
  `DateTime(date, time)` reading holds the day number since 1970-01-01 and
  the seconds since midnight, playing the part of QDate plus QTime. It has
  the minute field and the lemmas about shifting instants by whole hours or
  by part of an hour.
- `timezones.dfy`, module `TimeZones`: a zone is an identifier and a fixed
  offset. The zone database is passed in as a value. It holds the known
  identifiers with their offsets and the identifier of the host's zone.
  `Resolve` is the valid-or-default rule of `setTimeZone`, and `Project` is
  `QDateTime::toTimeZone`.
- `timemanager.dfy`, module `TimeManagement`: the notifications (`Event`),
  the pure specification of one timeout (`Step`) and of a series of
  timeouts (`Run`), and the class `TimeManager`. Its fields are `dateTime`
  and `timeZone`, and the method `GuhTimeout(now)` returns the notifications
  it emitted, in order.
- `timemanager_properties.dfy`, module `TimeManagerProperties`: lemmas about
  `Step` and `Run`. They restate the edge tests and payloads in plain
  arithmetic on instants, characterise the behaviour under zero, whole-hour
  and part-hour offsets, and work four concrete scenarios over an arbitrary
  day.
- `zeroconf.dfy`, module `ZeroConf`: the class `PlatformZeroConfController`
  with constant fields for its name and its dummy publisher.

The model reads the clock through a parameter `now`, in UTC seconds, on
every operation that reads the clock in the source.

## Behaviour as written

The model follows the code. The code does not behave like an idealised
minute and date notifier, and the obvious description of such a service
disagrees with it in the following ways. Each point is proved:

- The reference stays a UTC instant after `m_dateTime = currentDateTime`
  (timemanager.cpp:87). Both tests compare a UTC field of the reference with
  a zone-projected field of now (`StepTimeChanged`, `StepDateChanged`).
- The date test runs after the reference may have moved to now, not before
  (`StepDateChanged`). With a zero offset, a timeout that crosses UTC
  midnight and sees a minute edge therefore does not emit `dateChanged`
  (`ZeroOffsetMinuteEdgeHidesDateEdge`, `ScenarioMidnightAtZeroOffset`).
  One timeout less than 59 minutes after the reference never emits it
  (`ZeroOffsetNeverDateChanged`). A whole run of timeouts less than a
  minute apart, the first within two minutes of the reference, never emits
  `dateChanged`, however many midnights it crosses
  (`RunZeroOffsetNoDateChanged`), where a clock user would expect one per
  midnight. Only after a gap in the timeouts, when the reference and now
  happen to share the minute field across midnight (a reference at 23:00:30
  and a timeout at 00:00:10, say), does `dateChanged` fire, and it then
  carries the old day (`ScenarioMidnightGapAtZeroOffset`).
- `dateChanged` is not latched: a timeout in the same minute as one that
  emitted it, in a zone whose offset is whole hours, keeps the reference
  and emits the same `dateChanged` again (`DateChangedNotLatched`). In a
  zone one hour east of UTC, on any day, the timeout at local midnight
  emits `dateChanged` for the new day and the next timeout emits it again
  (`ScenarioMidnightEastOfUtc`). In a zone five hours west of UTC, on any
  day, the timeout at UTC midnight, local 19:00, emits `dateChanged`
  carrying the current local day, five hours before local midnight, and
  the next timeout emits it again (`ScenarioMidnightWestOfUtc`). Its
  payload is the local date of the reference, not of now.
- For an offset of whole minutes that is not whole hours, every further
  timeout in the same minute since the epoch as one that emitted
  `timeChanged` emits it again (`PartHourOffsetRepeatsTimeChanged`).
  "At most once per minute" is proved only for whole-hour offsets
  (`WholeHourOffsetOncePerMinute`, `RunOncePerMinute`).

## Model

| member | source | states |
|---|---|---|
| `Calendar.DateTime.Minute` | server/time/timemanager.cpp:86 | the minute field of a time of day is in 0..59 and is the minute within the current hour |
| `Calendar.FromSeconds` | server/time/timemanager.cpp:86-92 | the date and time of an instant: a time of day in 0..86399 that, added to the day's start, gives back the instant |
| `Calendar.FromSecondsOfReading` | server/time/timemanager.cpp:86-92 | every valid date-and-time reading is the reading of the instant it denotes, so readings and instants correspond one to one |
| `Calendar.MinuteOfInstant` | server/time/timemanager.cpp:86 | the minute field of an instant's reading is its seconds within the hour divided by 60, on any day |
| `Calendar.WholeHourShiftKeepsMinute` | server/time/timemanager.cpp:86 | projecting by an offset that is whole hours leaves the minute field unchanged |
| `Calendar.PartHourShiftChangesMinute` | server/time/timemanager.cpp:86 | projecting by an offset of whole minutes that is not whole hours always changes the minute field |
| `Calendar.SameEpochMinute` | server/time/timemanager.cpp:86-92 | two instants in the same minute since the epoch have equal minute fields and equal dates |
| `Calendar.SameEpochMinuteSide` | server/time/timemanager.cpp:86-92 | an instant's minute field and date depend only on its minute since the epoch |
| `TimeZones.ZoneDatabase.Resolve` | server/time/timemanager.cpp:50-60 | the zone stored for an identifier is always a known zone; it carries the identifier exactly when the identifier is known; it is the host's zone otherwise |
| `TimeZones.ResolveIdempotent` | server/time/timemanager.cpp:50-60 | setting the zone to the identifier of the stored zone keeps that zone |
| `TimeZones.Project` | server/time/timemanager.cpp:64 | the reading of an instant in a zone is the reading whose date and time add up to the instant plus the zone's offset |
| `TimeManagement.MinuteEdge` | server/time/timemanager.cpp:86 | the minute test: the minute field of the reference read in UTC differs from the minute field of now read in the zone (characterised in arithmetic by `MinuteEdgeArithmetic`) |
| `TimeManagement.DateEdge` | server/time/timemanager.cpp:92 | the date test: the day of the reference read in UTC differs from the day of now read in the zone (characterised in arithmetic by `StepDateChanged`) |
| `TimeManagement.Step` | server/time/timemanager.cpp:77-95 | the pure effect of one timeout, which `GuhTimeout` is proved to implement: tick; on a minute edge the reference becomes now and timeChanged carries its local time; then the date test against the updated reference (properties proved in `StepShape`, `StepTimeChanged`, `StepDateChanged`) |
| `TimeManagement.Count` | server/time/timemanager.cpp:77-95 | helper for counting emitted signals: the number of notifications of one kind is at most the length, and is zero exactly when none is of that kind |
| `TimeManagement.TimeManager.constructor` | server/time/timemanager.cpp:26-34 | the reference is the construction-time UTC instant and the zone is chosen by the valid-or-default rule; the zone is valid |
| `TimeManagement.TimeManager.TimeZoneId` | server/time/timemanager.cpp:45-48 | the identifier returned is a known one and names the active zone |
| `TimeManagement.TimeManager.SetTimeZone` | server/time/timemanager.cpp:50-60 | the active zone becomes the named zone if known, the host's zone otherwise; the reference is untouched and the zone stays valid |
| `TimeManagement.TimeManager.CurrentDateTime` | server/time/timemanager.cpp:62-65 | now in the active zone: a valid reading that adds up to now plus the zone's offset; no state changes |
| `TimeManagement.TimeManager.CurrentTime` | server/time/timemanager.cpp:67-70 | the local seconds since midnight: in 0..86399 and congruent to now plus the offset modulo a day; no state changes |
| `TimeManagement.TimeManager.CurrentDate` | server/time/timemanager.cpp:72-75 | the local day: the day whose span holds now plus the offset; no state changes |
| `TimeManagement.TimeManager.GuhTimeout` | server/time/timemanager.cpp:77-95 | the new reference and the notifications are those of `Step` on the old reference; the zone is not touched and stays valid |
| `TimeManagerProperties.CountAppend` | server/time/timemanager.cpp:77-95 | counts of notifications add up over concatenation |
| `TimeManagerProperties.StepShape` | server/time/timemanager.cpp:77-95 | every timeout emits exactly one tick, first, then at most one timeChanged, then at most one dateChanged, in that order, whatever the time |
| `TimeManagerProperties.MinuteEdgeArithmetic` | server/time/timemanager.cpp:86 | the minute test compares the reference's minute within the UTC hour with now's minute within the local hour |
| `TimeManagerProperties.StepOnMinuteEdge` | server/time/timemanager.cpp:86-89 | on a minute edge the reference becomes now and the second notification is timeChanged with now's local time; otherwise the reference is kept; one timeChanged exactly on an edge |
| `TimeManagerProperties.StepTimeChanged` | server/time/timemanager.cpp:86-89 | the same in plain arithmetic: timeChanged fires iff the UTC minute of the reference differs from the local minute of now, carries now's local seconds since midnight, and moves the reference to now; otherwise the reference is unchanged |
| `TimeManagerProperties.StepOnDateEdge` | server/time/timemanager.cpp:92-94 | dateChanged is emitted once exactly when the updated reference's UTC date differs from now's local date, carrying the reference's local date |
| `TimeManagerProperties.StepDateChanged` | server/time/timemanager.cpp:86-94 | the same in plain arithmetic against the reference after the minute update; the dateChanged is the last notification and carries the updated reference's local day |
| `TimeManagerProperties.ZeroOffsetMinuteEdgeHidesDateEdge` | server/time/timemanager.cpp:86-94 | with a zero offset, a timeout that sees a minute edge never also emits dateChanged |
| `TimeManagerProperties.ZeroOffsetSettledSameMinute` | server/time/timemanager.cpp:86-89 | with a zero offset, a timeout less than 59 minutes after the reference that sees no minute edge lies in the reference's minute since the epoch |
| `TimeManagerProperties.ZeroOffsetNeverDateChanged` | server/time/timemanager.cpp:86-94 | with a zero offset, a timeout less than 59 minutes after the reference never emits dateChanged |
| `TimeManagerProperties.RunZeroOffsetNoDateChanged` | server/time/timemanager.cpp:77-95 | with a zero offset, a run of timeouts less than a minute apart, the first within two minutes of the reference, emits no dateChanged at all, across any number of midnights |
| `TimeManagerProperties.WholeHourOffsetOncePerMinute` | server/time/timemanager.cpp:86-89 | with a whole-hour offset, a second timeout in the same minute emits no timeChanged |
| `TimeManagerProperties.PartHourOffsetRepeatsTimeChanged` | server/time/timemanager.cpp:86-89 | with an offset of whole minutes that is not whole hours, a timeout after one that emitted timeChanged, in the same minute, emits it again |
| `TimeManagerProperties.ShiftSameEpochMinute` | server/time/timemanager.cpp:86-92 | arithmetic helper: shifting two instants of one minute by whole minutes keeps them in one minute |
| `TimeManagerProperties.SameMinuteSameLocalDate` | server/time/timemanager.cpp:92 | with a whole-hour offset, two instants in one minute since the epoch have one local date |
| `TimeManagerProperties.DateChangedNotLatched` | server/time/timemanager.cpp:86-94 | with a whole-hour offset, a timeout in the same minute as one that emitted dateChanged keeps the reference and emits the same dateChanged again |
| `TimeManagerProperties.RunTicks` | server/time/timemanager.cpp:77-80 | a series of timeouts emits exactly one tick per timeout |
| `TimeManagerProperties.RunSettled` | server/time/timemanager.cpp:86-89 | timeouts that see no minute edge against the reference keep the reference and emit no timeChanged |
| `TimeManagerProperties.RunOncePerMinute` | server/time/timemanager.cpp:86-89 | with a whole-hour offset, any series of timeouts within one wall-clock minute emits at most one timeChanged |
| `TimeManagerProperties.At` | server/time/timemanager.cpp:86-92 | arithmetic helper for the scenarios: the reading of day d at second t of the day is (d, t) |
| `TimeManagerProperties.ScenarioMinuteBoundary` | server/time/timemanager.cpp:77-95 | offset zero, timeouts at 10:59:58, 10:59:59, 11:00:01: exactly tick, tick, tick, timeChanged(11:00:01), and the reference ends at 11:00:01 |
| `TimeManagerProperties.ScenarioMidnightAtZeroOffset` | server/time/timemanager.cpp:77-95 | offset zero, timeouts at 23:59:59 and next-day 00:00:01: tick, tick, timeChanged(00:00:01) and no dateChanged |
| `TimeManagerProperties.ScenarioMidnightEastOfUtc` | server/time/timemanager.cpp:77-95 | offset +1 h, timeouts across local midnight: timeChanged(00:00:00) and dateChanged(next day), then dateChanged(next day) again on the following timeout |
| `TimeManagerProperties.ScenarioMidnightWestOfUtc` | server/time/timemanager.cpp:77-95 | offset -5 h, timeouts at UTC midnight: timeChanged(19:00:00) and dateChanged(the current local day) five hours before local midnight, then dateChanged(that day) again on the following timeout |
| `TimeManagerProperties.ScenarioMidnightGapAtZeroOffset` | server/time/timemanager.cpp:77-95 | offset zero, a reference at 23:00:30 and a timeout at 00:00:10 the next day: no minute edge, the reference stays, and dateChanged fires carrying the old day |
| `TimeManagerProperties.ScenarioSkippedMinute` | server/time/timemanager.cpp:77-95 | a jump from 10:00:59 to 10:02:01 emits one timeChanged for 10:02:01; the skipped minute is not reported |
| `ZeroConf.PlatformZeroConfController.constructor` | libnymea/platform/platformzeroconfcontroller.cpp:28-32 | the resource is named "ZeroConf" and gets a new dummy publisher of its own, which `ServicePublisher` returns; unavailable and disabled |
| `ZeroConf.PlatformZeroConfController.ServicePublisher` | libnymea/platform/platformzeroconfcontroller.cpp:39-42 | returns the constant dummy publisher; it reads no state, so the same non-null object on every call, which no method can reassign |
| `ZeroConf.PlatformZeroConfController.Available` | libnymea/platform/platformzeroconfcontroller.cpp:44-47 | false, and the function reads no state, so false in every state |
| `ZeroConf.PlatformZeroConfController.Enabled` | libnymea/platform/platformzeroconfcontroller.cpp:49-52 | false, and the function reads no state, so false in every state |
| `ZeroConf.PlatformZeroConfController.SetEnabled` | libnymea/platform/platformzeroconfcontroller.cpp:54-57 | for either argument it modifies nothing; the controller stays unavailable and disabled and keeps its publisher |

## Left out

- The `QTimer` set-up (server/time/timemanager.cpp:36-42): the 1000 ms period, repetition and the signal/slot delivery are event-loop plumbing. A timeout is a call of `GuhTimeout` with the clock reading passed in, and the emitted signals are the returned sequence.
- The wall clock `QDateTime::currentDateTimeUtc()`: it is the parameter `now` of every operation that reads it.
- Real time-zone rules: daylight saving time and historical offsets are not modelled. Each zone has one fixed offset. `QTimeZone` validity is membership of the identifier in the injected database.
- The host's own zone is assumed to be known to the database (`ZoneDatabase.Valid`). The source relies on this too: it never checks the zone it falls back to.
- Millisecond resolution: instants, times and payloads are whole seconds, where QTime also carries milliseconds.
- The default-constructed, invalid `m_timeZone` that exists before the constructor calls `setTimeZone`: the model starts from the host's zone, which `SetTimeZone` immediately replaces, so no operation can observe either value.
- Logging (`qCDebug`, `qCWarning`): it has no effect on state or on notifications.
- `createServiceBrowser` (libnymea/platform/platformzeroconfcontroller.cpp:34-37): it creates a foreign `ZeroConfServiceBrowser` whose behaviour is not part of this model.
- The internals of `ZeroConfServicePublisher` and the Qt parent ownership of the publisher: the model keeps only the publisher's identity.
- The test sources (tests/auto/devices/testdevices.cpp, tests/testlib/nymeatestbase.h) drive the device manager and JSON-RPC server, which are not part of this model.
