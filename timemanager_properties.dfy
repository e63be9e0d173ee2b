/** What the tick handler of TimeManager guarantees, and what it does not,
    stated about Step and Run. Edge tests and payloads are restated here in
    plain arithmetic on instants, independently of the DateTime fields the
    handler reads. */
module TimeManagerProperties {
  import opened Calendar
  import opened TimeZones
  import opened TimeManagement

  /** Counting distributes over concatenation. */
  lemma {:induction false} CountAppend(a: seq<Event>, b: seq<Event>, kind: EventKind)
    ensures Count(a + b, kind) == Count(a, kind) + Count(b, kind)
  {
    if a == [] {
      assert a + b == b;
    } else {
      assert (a + b)[1..] == a[1..] + b;
      CountAppend(a[1..], b, kind);
    }
  }

  /** Every timeout emits exactly one heartbeat, first, at most one minute
      edge and at most one date edge, in that order, whatever the time. */
  lemma StepShape(reference: int, zone: TimeZone, now: int)
    ensures var r := Step(reference, zone, now);
      && 1 <= |r.events| <= 3
      && r.events[0] == Tick
      && Count(r.events, TickKind) == 1
      && Count(r.events, TimeChangedKind) <= 1
      && Count(r.events, DateChangedKind) <= 1
      && forall i, j :: 0 <= i < j < |r.events| ==> r.events[i].Kind().Rank() < r.events[j].Kind().Rank()
  {
    var r := Step(reference, zone, now);
    var t := if MinuteEdge(reference, zone, now) then [TimeChanged(Project(r.reference, zone).time)] else [];
    var d := if DateEdge(r.reference, zone, now) then [DateChanged(Project(r.reference, zone).date)] else [];
    assert r.events == [Tick] + t + d;
    CountAppend([Tick] + t, d, TickKind);
    CountAppend([Tick], t, TickKind);
    CountAppend([Tick] + t, d, TimeChangedKind);
    CountAppend([Tick], t, TimeChangedKind);
    CountAppend([Tick] + t, d, DateChangedKind);
    CountAppend([Tick], t, DateChangedKind);
  }

  /** The minute test in plain arithmetic: the reference's minute within the
      UTC hour against now's minute within the local hour. */
  lemma MinuteEdgeArithmetic(reference: int, zone: TimeZone, now: int)
    ensures MinuteEdge(reference, zone, now) <==> ArithmeticMinuteEdge(reference, zone, now)
  {
    MinuteOfInstant(reference);
    MinuteOfInstant(now + zone.offset);
  }

  /** What a timeout does on a minute edge and without one. */
  lemma StepOnMinuteEdge(reference: int, zone: TimeZone, now: int)
    ensures var r := Step(reference, zone, now);
      && (MinuteEdge(reference, zone, now) ==> r.reference == now && r.events[1] == TimeChanged(Project(now, zone).time))
      && (!MinuteEdge(reference, zone, now) ==> r.reference == reference)
      && Count(r.events, TimeChangedKind) == (if MinuteEdge(reference, zone, now) then 1 else 0)
  {
    var r := Step(reference, zone, now);
    var d := if DateEdge(r.reference, zone, now) then [DateChanged(Project(r.reference, zone).date)] else [];
    if MinuteEdge(reference, zone, now) {
      var e := TimeChanged(Project(now, zone).time);
      assert r.events == [Tick, e] + d;
      CountAppend([Tick, e], d, TimeChangedKind);
    } else {
      assert r.events == [Tick] + d;
      CountAppend([Tick], d, TimeChangedKind);
    }
  }

  /** The minute edge in plain arithmetic on instants: the reference's
      minute within the UTC hour differs from now's minute within the local
      hour. */
  predicate ArithmeticMinuteEdge(reference: int, zone: TimeZone, now: int) {
    reference % SecondsPerHour / SecondsPerMinute != (now + zone.offset) % SecondsPerHour / SecondsPerMinute
  }

  /** A minute edge is seen exactly when the reference's minute within the
      UTC hour differs from now's minute within the local hour. Then the
      reference becomes now and the one TimeChanged carries now's local time
      of day; otherwise the reference is unchanged and no TimeChanged is
      emitted. */
  lemma StepTimeChanged(reference: int, zone: TimeZone, now: int)
    ensures ArithmeticMinuteEdge(reference, zone, now) ==>
      Step(reference, zone, now).reference == now
      && TimeChanged((now + zone.offset) % SecondsPerDay) in Step(reference, zone, now).events
    ensures !ArithmeticMinuteEdge(reference, zone, now) ==> Step(reference, zone, now).reference == reference
    ensures Count(Step(reference, zone, now).events, TimeChangedKind) == if ArithmeticMinuteEdge(reference, zone, now) then 1 else 0
  {
    MinuteEdgeArithmetic(reference, zone, now);
    StepOnMinuteEdge(reference, zone, now);
    if ArithmeticMinuteEdge(reference, zone, now) {
      assert MinuteEdge(reference, zone, now);
      assert Project(now, zone).time == (now + zone.offset) % SecondsPerDay;
    } else {
      assert !MinuteEdge(reference, zone, now);
    }
  }

  /** What a timeout does on a date edge and without one, in terms of the
      updated reference. */
  lemma StepOnDateEdge(reference: int, zone: TimeZone, now: int)
    ensures var r := Step(reference, zone, now);
      && (DateEdge(r.reference, zone, now) ==> DateChanged(Project(r.reference, zone).date) in r.events)
      && Count(r.events, DateChangedKind) == (if DateEdge(r.reference, zone, now) then 1 else 0)
  {
    var r := Step(reference, zone, now);
    var t := if MinuteEdge(reference, zone, now) then [TimeChanged(Project(r.reference, zone).time)] else [];
    var d := if DateEdge(r.reference, zone, now) then [DateChanged(Project(r.reference, zone).date)] else [];
    assert r.events == ([Tick] + t) + d;
    CountAppend([Tick] + t, d, DateChangedKind);
    CountAppend([Tick], t, DateChangedKind);
  }

  /** The date test is made against the reference as it stands after the
      minute test: a DateChanged is emitted exactly when the updated
      reference's UTC day differs from now's local day, and it carries the
      updated reference's local day. */
  lemma StepDateChanged(reference: int, zone: TimeZone, now: int)
    ensures var r := Step(reference, zone, now);
      var edge := r.reference / SecondsPerDay != (now + zone.offset) / SecondsPerDay;
      && Count(r.events, DateChangedKind) == (if edge then 1 else 0)
      && (edge ==> r.events[|r.events| - 1] == DateChanged((r.reference + zone.offset) / SecondsPerDay))
  {
    var r := Step(reference, zone, now);
    var t := if MinuteEdge(reference, zone, now) then [TimeChanged(Project(r.reference, zone).time)] else [];
    var d := if DateEdge(r.reference, zone, now) then [DateChanged(Project(r.reference, zone).date)] else [];
    assert r.events == [Tick] + t + d;
    CountAppend([Tick] + t, d, DateChangedKind);
    CountAppend([Tick], t, DateChangedKind);
  }

  /** In a zone at UTC offset zero a timeout that sees a minute edge never
      also emits DateChanged, even when it crosses midnight: the reference
      has already become now when the date test is made. */
  lemma ZeroOffsetMinuteEdgeHidesDateEdge(reference: int, zone: TimeZone, now: int)
    requires zone.offset == 0
    requires MinuteEdge(reference, zone, now)
    ensures Count(Step(reference, zone, now).events, DateChangedKind) == 0
  {
    StepDateChanged(reference, zone, now);
  }

  /** In a zone at UTC offset zero, a timeout less than 59 minutes after
      the reference that sees no minute edge falls in the reference's minute
      since the epoch. */
  lemma ZeroOffsetSettledSameMinute(reference: int, zone: TimeZone, now: int)
    requires zone.offset == 0
    requires reference <= now < reference + SecondsPerHour - SecondsPerMinute
    requires !MinuteEdge(reference, zone, now)
    ensures now / SecondsPerMinute == reference / SecondsPerMinute
  {
    MinuteOfInstant(reference);
    MinuteOfInstant(now);
    var h, r := reference / SecondsPerHour, reference % SecondsPerHour;
    var m, s := r / SecondsPerMinute, r % SecondsPerMinute;
    if now >= (h + 1) * SecondsPerHour {
      var r' := now - (h + 1) * SecondsPerHour;
      SplitHour(now, h + 1, r');
      assert false;
    }
    SplitHour(now, h, now - h * SecondsPerHour);
    var s' := now % SecondsPerHour % SecondsPerMinute;
    assert reference == (h * MinutesPerHour + m) * SecondsPerMinute + s;
    assert now == (h * MinutesPerHour + m) * SecondsPerMinute + s';
    SplitMinute(reference, h * MinutesPerHour + m, s);
    SplitMinute(now, h * MinutesPerHour + m, s');
  }

  /** In a zone at UTC offset zero, a timeout less than 59 minutes after the
      reference never emits DateChanged: the date edge of such a zone is
      only seen after a gap in the timeouts. */
  lemma ZeroOffsetNeverDateChanged(reference: int, zone: TimeZone, now: int)
    requires zone.offset == 0
    requires reference <= now < reference + SecondsPerHour - SecondsPerMinute
    ensures Count(Step(reference, zone, now).events, DateChangedKind) == 0
  {
    StepDateChanged(reference, zone, now);
    if !MinuteEdge(reference, zone, now) {
      ZeroOffsetSettledSameMinute(reference, zone, now);
      SameEpochMinute(reference, now);
    }
  }

  /** In a zone at UTC offset zero, a run of timeouts that come less than a
      minute apart, the first within two minutes of the reference, never
      emits DateChanged, across any number of midnights. After each timeout
      the reference lies in the minute of that timeout or the one before. */
  lemma {:induction false} RunZeroOffsetNoDateChanged(reference: int, zone: TimeZone, readings: seq<int>)
    requires zone.offset == 0
    requires readings != [] ==> reference <= readings[0] < reference + 2 * SecondsPerMinute
    requires forall i :: 0 < i < |readings| ==> readings[i - 1] <= readings[i] < readings[i - 1] + SecondsPerMinute
    ensures Count(Run(reference, zone, readings).events, DateChangedKind) == 0
    decreases |readings|
  {
    if readings != [] {
      var now := readings[0];
      var first := Step(reference, zone, now);
      ZeroOffsetNeverDateChanged(reference, zone, now);
      StepOnMinuteEdge(reference, zone, now);
      if !MinuteEdge(reference, zone, now) {
        ZeroOffsetSettledSameMinute(reference, zone, now);
      }
      assert first.reference <= now < first.reference + SecondsPerMinute;
      var rest := readings[1..];
      if rest != [] {
        assert rest[0] == readings[1];
      }
      forall i | 0 < i < |rest|
        ensures rest[i - 1] <= rest[i] < rest[i - 1] + SecondsPerMinute
      {
        assert rest[i - 1] == readings[i] && rest[i] == readings[i + 1];
      }
      RunZeroOffsetNoDateChanged(first.reference, zone, rest);
      CountAppend(first.events, Run(first.reference, zone, rest).events, DateChangedKind);
    }
  }

  /** In a zone whose offset is a whole number of hours, a second timeout in
      the same wall-clock minute as the previous one emits no TimeChanged. */
  lemma WholeHourOffsetOncePerMinute(reference: int, zone: TimeZone, now1: int, now2: int)
    requires zone.offset % SecondsPerHour == 0
    requires now1 / SecondsPerMinute == now2 / SecondsPerMinute
    ensures Count(Step(Step(reference, zone, now1).reference, zone, now2).events, TimeChangedKind) == 0
  {
    var first := Step(reference, zone, now1);
    WholeHourShiftKeepsMinute(now1, zone.offset);
    WholeHourShiftKeepsMinute(now2, zone.offset);
    SameEpochMinute(now1, now2);
    assert !MinuteEdge(first.reference, zone, now2);
    StepTimeChanged(first.reference, zone, now2);
    MinuteOfInstant(first.reference);
    MinuteOfInstant(now2 + zone.offset);
  }

  /** In a zone whose offset is whole minutes but not whole hours (UTC+5:30,
      say), once a timeout emits TimeChanged, every further timeout in the
      same minute emits it again. */
  lemma PartHourOffsetRepeatsTimeChanged(reference: int, zone: TimeZone, now1: int, now2: int)
    requires zone.offset % SecondsPerMinute == 0 && zone.offset % SecondsPerHour != 0
    requires now1 / SecondsPerMinute == now2 / SecondsPerMinute
    requires MinuteEdge(reference, zone, now1)
    ensures Count(Step(Step(reference, zone, now1).reference, zone, now2).events, TimeChangedKind) == 1
  {
    PartHourShiftChangesMinute(now2, zone.offset);
    SameEpochMinute(now1, now2);
    assert MinuteEdge(now1, zone, now2);
    StepShape(now1, zone, now2);
    var r := Step(now1, zone, now2);
    var d := if DateEdge(r.reference, zone, now2) then [DateChanged(Project(r.reference, zone).date)] else [];
    assert r.events == [Tick, TimeChanged(Project(r.reference, zone).time)] + d;
    CountAppend([Tick, TimeChanged(Project(r.reference, zone).time)], d, TimeChangedKind);
  }

  /** Shifting two instants of one minute since the epoch by whole minutes
      keeps them in one minute. */
  lemma ShiftSameEpochMinute(x: int, y: int, offset: int)
    requires offset % SecondsPerMinute == 0
    requires x / SecondsPerMinute == y / SecondsPerMinute
    ensures (x + offset) / SecondsPerMinute == (y + offset) / SecondsPerMinute
  {
    var k, q := offset / SecondsPerMinute, x / SecondsPerMinute;
    assert offset == k * SecondsPerMinute;
    SplitMinute(x + offset, q + k, x % SecondsPerMinute);
    SplitMinute(y + offset, q + k, y % SecondsPerMinute);
  }

  /** Two instants in one minute since the epoch fall on one local day. */
  lemma SameMinuteSameLocalDate(now1: int, now2: int, zone: TimeZone)
    requires zone.offset % SecondsPerHour == 0
    requires now1 / SecondsPerMinute == now2 / SecondsPerMinute
    ensures Project(now1, zone).date == Project(now2, zone).date
  {
    var k := zone.offset / SecondsPerHour;
    assert zone.offset == (k * MinutesPerHour) * SecondsPerMinute + 0;
    SplitMinute(zone.offset, k * MinutesPerHour, 0);
    ShiftSameEpochMinute(now1, now2, zone.offset);
    SameEpochMinute(now1 + zone.offset, now2 + zone.offset);
    assert Project(now1, zone) == FromSeconds(now1 + zone.offset);
    assert Project(now2, zone) == FromSeconds(now2 + zone.offset);
  }

  /** DateChanged is not latched: in a zone whose offset is whole hours, a
      timeout in the same minute as one that emitted DateChanged leaves the
      reference alone and emits DateChanged again, with the same day. */
  lemma DateChangedNotLatched(reference: int, zone: TimeZone, now1: int, now2: int)
    requires zone.offset % SecondsPerHour == 0
    requires now1 / SecondsPerMinute == now2 / SecondsPerMinute
    requires Count(Step(reference, zone, now1).events, DateChangedKind) == 1
    ensures Step(Step(reference, zone, now1).reference, zone, now2).reference == Step(reference, zone, now1).reference
    ensures DateChanged(Project(Step(reference, zone, now1).reference, zone).date) in Step(reference, zone, now1).events
    ensures DateChanged(Project(Step(reference, zone, now1).reference, zone).date)
            in Step(Step(reference, zone, now1).reference, zone, now2).events
    ensures Count(Step(Step(reference, zone, now1).reference, zone, now2).events, DateChangedKind) == 1
  {
    var first := Step(reference, zone, now1);
    WholeHourOffsetOncePerMinute(reference, zone, now1, now2);
    StepOnMinuteEdge(first.reference, zone, now2);
    assert Step(first.reference, zone, now2).reference == first.reference;
    SameMinuteSameLocalDate(now1, now2, zone);
    StepOnDateEdge(reference, zone, now1);
    assert DateEdge(first.reference, zone, now1);
    assert DateEdge(first.reference, zone, now2);
    StepOnDateEdge(first.reference, zone, now2);
  }

  /** A run of timeouts emits exactly one heartbeat per timeout. */
  lemma {:induction false} RunTicks(reference: int, zone: TimeZone, readings: seq<int>)
    ensures Count(Run(reference, zone, readings).events, TickKind) == |readings|
    decreases |readings|
  {
    if readings != [] {
      var first := Step(reference, zone, readings[0]);
      StepShape(reference, zone, readings[0]);
      RunTicks(first.reference, zone, readings[1..]);
      CountAppend(first.events, Run(first.reference, zone, readings[1..]).events, TickKind);
    }
  }

  /** A run of timeouts none of which sees a minute edge against the
      reference leaves the reference alone and emits no TimeChanged. */
  lemma {:induction false} RunSettled(reference: int, zone: TimeZone, readings: seq<int>)
    requires forall i :: 0 <= i < |readings| ==> !MinuteEdge(reference, zone, readings[i])
    ensures Count(Run(reference, zone, readings).events, TimeChangedKind) == 0
    ensures Run(reference, zone, readings).reference == reference
    decreases |readings|
  {
    if readings != [] {
      var first := Step(reference, zone, readings[0]);
      StepOnMinuteEdge(reference, zone, readings[0]);
      RunSettled(reference, zone, readings[1..]);
      CountAppend(first.events, Run(first.reference, zone, readings[1..]).events, TimeChangedKind);
    }
  }

  /** In a zone whose offset is whole hours, timeouts that all fall in one
      wall-clock minute emit TimeChanged at most once between them. */
  lemma RunOncePerMinute(reference: int, zone: TimeZone, minute: int, readings: seq<int>)
    requires zone.offset % SecondsPerHour == 0
    requires forall i :: 0 <= i < |readings| ==> readings[i] / SecondsPerMinute == minute
    ensures Count(Run(reference, zone, readings).events, TimeChangedKind) <= 1
  {
    if readings != [] {
      var first := Step(reference, zone, readings[0]);
      StepShape(reference, zone, readings[0]);
      forall i | 0 <= i < |readings[1..]|
        ensures !MinuteEdge(first.reference, zone, readings[1..][i])
      {
        WholeHourOffsetOncePerMinute(reference, zone, readings[0], readings[1..][i]);
        StepOnMinuteEdge(first.reference, zone, readings[1..][i]);
      }
      RunSettled(first.reference, zone, readings[1..]);
      CountAppend(first.events, Run(first.reference, zone, readings[1..]).events, TimeChangedKind);
    }
  }

  /** The reading of an instant given as a day and a second within it. */
  lemma At(d: int, t: int)
    requires 0 <= t < SecondsPerDay
    ensures FromSeconds(d * SecondsPerDay + t) == DateTime(d, t)
  {
    FromSecondsOfReading(DateTime(d, t));
  }

  /** Timeouts at 10:59:58, 10:59:59 and 11:00:01 UTC on any day, in a zone
      at offset zero, with the reference taken at 10:59:58: three heartbeats
      and one TimeChanged carrying 11:00:01, and no DateChanged. */
  lemma ScenarioMinuteBoundary(zone: TimeZone, d: int)
    requires zone.offset == 0
    ensures var day := d * SecondsPerDay;
      Run(day + 39598, zone, [day + 39598, day + 39599, day + 39601])
      == Outcome(day + 39601, [Tick, Tick, Tick, TimeChanged(39601)])
  {
    var day := d * SecondsPerDay;
    At(d, 39598);
    At(d, 39599);
    At(d, 39601);
    assert Step(day + 39598, zone, day + 39598) == Outcome(day + 39598, [Tick]);
    assert Step(day + 39598, zone, day + 39599) == Outcome(day + 39598, [Tick]);
    assert Step(day + 39598, zone, day + 39601) == Outcome(day + 39601, [Tick, TimeChanged(39601)]);
    assert [day + 39598, day + 39599, day + 39601][1..] == [day + 39599, day + 39601];
    assert [day + 39599, day + 39601][1..] == [day + 39601];
    assert [day + 39601][1..] == [];
    assert Run(day + 39601, zone, []) == Outcome(day + 39601, []);
    assert Run(day + 39598, zone, [day + 39601]) == Outcome(day + 39601, [Tick, TimeChanged(39601)]);
    assert Run(day + 39598, zone, [day + 39599, day + 39601]) == Outcome(day + 39601, [Tick, Tick, TimeChanged(39601)]);
  }

  /** Timeouts at 23:59:59 and then 00:00:01 UTC the next day, in a zone at
      offset zero, with the reference taken at 23:59:58: two heartbeats and
      one TimeChanged carrying 00:00:01, but no DateChanged, because the
      reference has already moved to the new day when the date is tested. */
  lemma ScenarioMidnightAtZeroOffset(zone: TimeZone, d: int)
    requires zone.offset == 0
    ensures var day := d * SecondsPerDay;
      Run(day + 86398, zone, [day + 86399, day + SecondsPerDay + 1])
      == Outcome(day + SecondsPerDay + 1, [Tick, Tick, TimeChanged(1)])
  {
    var day := d * SecondsPerDay;
    At(d, 86398);
    At(d, 86399);
    At(d + 1, 1);
    assert day + SecondsPerDay + 1 == (d + 1) * SecondsPerDay + 1;
    assert Step(day + 86398, zone, day + 86399) == Outcome(day + 86398, [Tick]);
    assert Step(day + 86398, zone, day + SecondsPerDay + 1) == Outcome(day + SecondsPerDay + 1, [Tick, TimeChanged(1)]);
    assert [day + 86399, day + SecondsPerDay + 1][1..] == [day + SecondsPerDay + 1];
    assert [day + SecondsPerDay + 1][1..] == [];
    assert Run(day + SecondsPerDay + 1, zone, []) == Outcome(day + SecondsPerDay + 1, []);
    assert Run(day + 86398, zone, [day + SecondsPerDay + 1]) == Outcome(day + SecondsPerDay + 1, [Tick, TimeChanged(1)]);
  }

  /** Timeouts at 22:59:59, 23:00:00 and 23:00:01 UTC in a zone one hour
      east of UTC, that is across local midnight, with the reference taken at
      22:59:58 UTC: the minute edge at local 00:00:00 emits TimeChanged and
      DateChanged for the new local day, and the next timeout emits
      DateChanged for that day again. */
  lemma ScenarioMidnightEastOfUtc(zone: TimeZone, d: int)
    requires zone.offset == SecondsPerHour
    ensures var day := d * SecondsPerDay;
      Run(day + 82798, zone, [day + 82799, day + 82800, day + 82801])
      == Outcome(day + 82800, [Tick, Tick, TimeChanged(0), DateChanged(d + 1), Tick, DateChanged(d + 1)])
  {
    var day := d * SecondsPerDay;
    At(d, 82798);
    At(d, 82799);
    At(d, 82800);
    At(d, 86399);
    At(d + 1, 0);
    At(d + 1, 1);
    assert day + 82800 + SecondsPerHour == (d + 1) * SecondsPerDay + 0;
    assert day + 82801 + SecondsPerHour == (d + 1) * SecondsPerDay + 1;
    assert Step(day + 82798, zone, day + 82799) == Outcome(day + 82798, [Tick]);
    assert Step(day + 82798, zone, day + 82800) == Outcome(day + 82800, [Tick, TimeChanged(0), DateChanged(d + 1)]);
    assert Step(day + 82800, zone, day + 82801) == Outcome(day + 82800, [Tick, DateChanged(d + 1)]);
    assert [day + 82799, day + 82800, day + 82801][1..] == [day + 82800, day + 82801];
    assert [day + 82800, day + 82801][1..] == [day + 82801];
    assert [day + 82801][1..] == [];
    assert Run(day + 82800, zone, []) == Outcome(day + 82800, []);
    assert Run(day + 82800, zone, [day + 82801]) == Outcome(day + 82800, [Tick, DateChanged(d + 1)]);
    assert Run(day + 82798, zone, [day + 82800, day + 82801])
        == Outcome(day + 82800, [Tick, TimeChanged(0), DateChanged(d + 1), Tick, DateChanged(d + 1)]);
  }

  /** Timeouts at 23:59:59, 00:00:00 and 00:00:01 UTC in a zone five hours
      west of UTC, that is at local 18:59:59 to 19:00:01, with the reference
      taken at 23:59:58 UTC: the minute edge at UTC midnight moves the
      reference to the new UTC day, so DateChanged fires hours before local
      midnight, carrying the current local day, and repeats on the next
      timeout. */
  lemma ScenarioMidnightWestOfUtc(zone: TimeZone, d: int)
    requires zone.offset == -5 * SecondsPerHour
    ensures var day := d * SecondsPerDay;
      Run(day + 86398, zone, [day + 86399, day + SecondsPerDay, day + SecondsPerDay + 1])
      == Outcome(day + SecondsPerDay, [Tick, Tick, TimeChanged(68400), DateChanged(d), Tick, DateChanged(d)])
  {
    var day := d * SecondsPerDay;
    var next := day + SecondsPerDay;
    At(d, 86398);
    At(d, 86399);
    At(d, 68399);
    At(d, 68400);
    At(d, 68401);
    At(d + 1, 0);
    assert next == (d + 1) * SecondsPerDay + 0;
    assert Step(day + 86398, zone, day + 86399) == Outcome(day + 86398, [Tick]);
    assert Step(day + 86398, zone, next) == Outcome(next, [Tick, TimeChanged(68400), DateChanged(d)]);
    assert Step(next, zone, next + 1) == Outcome(next, [Tick, DateChanged(d)]);
    assert [day + 86399, next, next + 1][1..] == [next, next + 1];
    assert [next, next + 1][1..] == [next + 1];
    assert [next + 1][1..] == [];
    assert Run(next, zone, []) == Outcome(next, []);
    assert Run(next, zone, [next + 1]) == Outcome(next, [Tick, DateChanged(d)]);
    assert Run(day + 86398, zone, [next, next + 1])
        == Outcome(next, [Tick, TimeChanged(68400), DateChanged(d), Tick, DateChanged(d)]);
  }

  /** A timeout at 00:00:10 UTC after a reference taken at 23:00:30 the day
      before, in a zone at offset zero: both minute fields are 0, so the
      reference stays on the old day and DateChanged fires, carrying the old
      day. */
  lemma ScenarioMidnightGapAtZeroOffset(zone: TimeZone, d: int)
    requires zone.offset == 0
    ensures var day := d * SecondsPerDay;
      Step(day + 82830, zone, day + SecondsPerDay + 10) == Outcome(day + 82830, [Tick, DateChanged(d)])
  {
    var day := d * SecondsPerDay;
    At(d, 82830);
    At(d + 1, 10);
    assert day + SecondsPerDay + 10 == (d + 1) * SecondsPerDay + 10;
  }

  /** A timeout at 10:02:01 after a reference taken at 10:00:59, in a zone at
      offset zero: one TimeChanged for the minute observed; the skipped
      minute 10:01 is not reported. */
  lemma ScenarioSkippedMinute(zone: TimeZone, d: int)
    requires zone.offset == 0
    ensures var day := d * SecondsPerDay;
      Step(day + 36059, zone, day + 36121) == Outcome(day + 36121, [Tick, TimeChanged(36121)])
  {
    At(d, 36059);
    At(d, 36121);
  }
}
