/** The daily window of the equipment retrieval schedule, as one calendar spec per hour. */
module Calendar {
  import opened Prelude

  datatype CalendarSpec = CalendarSpec(hour: nat, minutes: seq<nat>)

  /** The configured window: hours and minutes of day, and a positive interval, as configuration enforces. */
  datatype Window = Window(startHour: nat, startMinute: nat, endHour: nat, endMinute: nat, interval: nat) {
    predicate Valid() {
      startHour <= 23 && startMinute <= 59 && endHour <= 23 && endMinute <= 59 && interval > 0
    }

    function Start(): nat {
      startHour * 60 + startMinute
    }

    function End(): nat {
      endHour * 60 + endMinute
    }
  }

  function MinutesOfDay(hour: nat, minutes: seq<nat>): seq<nat> {
    if minutes == [] then [] else MinutesOfDay(hour, minutes[..|minutes| - 1]) + [hour * 60 + minutes[|minutes| - 1]]
  }

  /** Every minute of the day the specs fire at, spec by spec. */
  function Firings(specs: seq<CalendarSpec>): seq<nat> {
    if specs == [] then []
    else
      var last := specs[|specs| - 1];
      Firings(specs[..|specs| - 1]) + MinutesOfDay(last.hour, last.minutes)
  }

  function Tick(start: nat, interval: nat, n: nat): nat {
    if n == 0 then start else Tick(start, interval, n - 1) + interval
  }

  /** The first n ticks from start. */
  function Ticks(start: nat, interval: nat, n: nat): seq<nat> {
    if n == 0 then [] else Ticks(start, interval, n - 1) + [Tick(start, interval, n - 1)]
  }

  lemma {:induction false} TickIsMultiple(start: nat, interval: nat, n: nat)
    ensures Tick(start, interval, n) == start + n * interval
  {
    if n > 0 {
      TickIsMultiple(start, interval, n - 1);
      assert n * interval == (n - 1) * interval + interval;
    }
  }

  /** The ticks are start, start + interval, start + 2 * interval and so on. */
  lemma {:induction false} TicksAreSpaced(start: nat, interval: nat, n: nat)
    ensures |Ticks(start, interval, n)| == n
    ensures forall k :: 0 <= k < n ==> Ticks(start, interval, n)[k] == start + k * interval
  {
    if n > 0 {
      TicksAreSpaced(start, interval, n - 1);
      TickIsMultiple(start, interval, n - 1);
    }
  }

  lemma QuotientIs(d: nat, interval: nat, q: int, r: nat)
    requires r < interval && d == q * interval + r
    ensures d / interval == q
  {
    var q', r' := d / interval, d % interval;
    assert d == q' * interval + r';
    assert (q - q') * interval == q * interval - q' * interval == r' - r;
    assert q - q' >= 1 ==> (q - q') * interval >= interval;
    assert q' - q >= 1 ==> (q' - q) * interval >= interval;
  }

  predicate Increasing(s: seq<nat>) {
    forall i, j :: 0 <= i < j < |s| ==> s[i] < s[j]
  }

  predicate TidySpec(spec: CalendarSpec) {
    spec.hour <= 23 && spec.minutes != [] && Increasing(spec.minutes) &&
    forall k :: 0 <= k < |spec.minutes| ==> spec.minutes[k] <= 59
  }

  /** Each hour once and in order, with its minutes of the hour in order. */
  predicate Tidy(specs: seq<CalendarSpec>) {
    (forall i :: 0 <= i < |specs| ==> TidySpec(specs[i])) &&
    (forall i, j :: 0 <= i < j < |specs| ==> specs[i].hour < specs[j].hour)
  }

  /** The last spec's last firing comes before t. */
  predicate Before(specs: seq<CalendarSpec>, t: nat)
    requires Tidy(specs)
  {
    specs != [] ==>
      var last := specs[|specs| - 1];
      TidySpec(last) && last.hour * 60 + last.minutes[|last.minutes| - 1] < t
  }

  function Add(specs: seq<CalendarSpec>, hour: nat, minute: nat): seq<CalendarSpec> {
    if specs != [] && specs[|specs| - 1].hour == hour then
      specs[..|specs| - 1] + [CalendarSpec(hour, specs[|specs| - 1].minutes + [minute])]
    else
      specs + [CalendarSpec(hour, [minute])]
  }

  lemma AddFires(specs: seq<CalendarSpec>, hour: nat, minute: nat)
    ensures Firings(Add(specs, hour, minute)) == Firings(specs) + [hour * 60 + minute]
  {
    var added := Add(specs, hour, minute);
    if specs != [] && specs[|specs| - 1].hour == hour {
      var front, minutes := specs[..|specs| - 1], specs[|specs| - 1].minutes;
      assert added[..|added| - 1] == front;
      assert (minutes + [minute])[..|minutes|] == minutes;
      assert Firings(added) == Firings(front) + (MinutesOfDay(hour, minutes) + [hour * 60 + minute]);
      assert Firings(specs) == Firings(front) + MinutesOfDay(hour, minutes);
    } else {
      assert added[..|added| - 1] == specs;
      assert MinutesOfDay(hour, [minute]) == [] + [hour * 60 + minute] == [hour * 60 + minute];
    }
  }

  lemma AddIsTidy(specs: seq<CalendarSpec>, hour: nat, minute: nat)
    requires Tidy(specs) && hour <= 23 && minute <= 59 && Before(specs, hour * 60 + minute)
    ensures Tidy(Add(specs, hour, minute)) && Before(Add(specs, hour, minute), hour * 60 + minute + 1)
  {
    var added := Add(specs, hour, minute);
    assert TidySpec(added[|added| - 1]);
    assert forall i :: 0 <= i < |added| - 1 ==> added[i] == specs[i];
  }

  lemma AddMinute(specs: seq<CalendarSpec>, current: nat)
    requires Tidy(specs) && Before(specs, current) && current < 24 * 60
    ensures Tidy(Add(specs, current / 60, current % 60)) && Before(Add(specs, current / 60, current % 60), current + 1)
    ensures Firings(Add(specs, current / 60, current % 60)) == Firings(specs) + [current]
  {
    AddFires(specs, current / 60, current % 60);
    AddIsTidy(specs, current / 60, current % 60);
  }

  /** The map in insertion order, as Array.from reads it. */
  ghost predicate Lists(specs: seq<CalendarSpec>, hours: seq<nat>, minutesByHour: map<nat, seq<nat>>) {
    |specs| == |hours| && (forall hour :: hour in minutesByHour <==> hour in hours) &&
    forall i :: 0 <= i < |hours| ==>
      hours[i] in minutesByHour && specs[i] == CalendarSpec(hours[i], minutesByHour[hours[i]])
  }

  lemma NewHour(specs: seq<CalendarSpec>, hours: seq<nat>, minutesByHour: map<nat, seq<nat>>, hour: nat, minute: nat)
    requires Lists(specs, hours, minutesByHour) && hour !in minutesByHour
    ensures Lists(Add(specs, hour, minute), hours + [hour], minutesByHour[hour := [minute]])
  {
    if specs != [] {
      assert hours[|hours| - 1] in hours;
    }
  }

  /** A later minute of a known hour belongs to the last spec. */
  lemma KnownHour(specs: seq<CalendarSpec>, hours: seq<nat>, minutesByHour: map<nat, seq<nat>>, hour: nat, minute: nat)
    requires Lists(specs, hours, minutesByHour) && hour in minutesByHour
    requires Tidy(specs) && minute <= 59 && Before(specs, hour * 60 + minute)
    ensures Lists(Add(specs, hour, minute), hours, minutesByHour[hour := minutesByHour[hour] + [minute]])
  {
    var i :| 0 <= i < |hours| && hours[i] == hour;
    assert specs[i].hour == hour;
    assert specs[|specs| - 1].hour <= hour;
    assert i == |hours| - 1;
    var minutesByHour' := minutesByHour[hour := minutesByHour[hour] + [minute]];
    forall j | 0 <= j < |hours|
      ensures hours[j] in minutesByHour' &&
              Add(specs, hour, minute)[j] == CalendarSpec(hours[j], minutesByHour'[hours[j]])
    {
      assert j < i ==> specs[j].hour < specs[i].hour;
    }
  }

  function Push(minutesByHour: map<nat, seq<nat>>, hour: nat, minute: nat): map<nat, seq<nat>> {
    minutesByHour[hour := (if hour in minutesByHour then minutesByHour[hour] else []) + [minute]]
  }

  // ----- the loop's variables after n ticks, and the specs they stand for -----

  function HoursAfter(start: nat, interval: nat, n: nat): seq<nat> {
    if n == 0 then []
    else
      var hour, hours := Tick(start, interval, n - 1) / 60, HoursAfter(start, interval, n - 1);
      if hour in MinutesAfter(start, interval, n - 1) then hours else hours + [hour]
  }

  function MinutesAfter(start: nat, interval: nat, n: nat): map<nat, seq<nat>> {
    if n == 0 then map[]
    else Push(MinutesAfter(start, interval, n - 1), Tick(start, interval, n - 1) / 60,
              Tick(start, interval, n - 1) % 60)
  }

  function SpecsAfter(start: nat, interval: nat, n: nat): seq<CalendarSpec> {
    if n == 0 then []
    else Add(SpecsAfter(start, interval, n - 1), Tick(start, interval, n - 1) / 60, Tick(start, interval, n - 1) % 60)
  }

  lemma AddKeepsLists(specs: seq<CalendarSpec>, hours: seq<nat>, minutesByHour: map<nat, seq<nat>>, hour: nat,
                      minute: nat)
    requires Lists(specs, hours, minutesByHour) && Tidy(specs) && minute <= 59 && Before(specs, hour * 60 + minute)
    ensures Lists(Add(specs, hour, minute), if hour in minutesByHour then hours else hours + [hour],
                  Push(minutesByHour, hour, minute))
  {
    if hour in minutesByHour {
      KnownHour(specs, hours, minutesByHour, hour, minute);
    } else {
      NewHour(specs, hours, minutesByHour, hour, minute);
      assert [] + [minute] == [minute];
    }
  }

  lemma {:induction false} AfterTicks(start: nat, interval: nat, n: nat)
    requires interval > 0 && (n > 0 ==> Tick(start, interval, n - 1) < 24 * 60)
    ensures Lists(SpecsAfter(start, interval, n), HoursAfter(start, interval, n), MinutesAfter(start, interval, n))
    ensures Tidy(SpecsAfter(start, interval, n)) && Before(SpecsAfter(start, interval, n), Tick(start, interval, n))
    ensures Firings(SpecsAfter(start, interval, n)) == Ticks(start, interval, n)
  {
    if n > 0 {
      var current, specs := Tick(start, interval, n - 1), SpecsAfter(start, interval, n - 1);
      AfterTicks(start, interval, n - 1);
      AddMinute(specs, current);
      AddKeepsLists(specs, HoursAfter(start, interval, n - 1), MinutesAfter(start, interval, n - 1),
                    current / 60, current % 60);
    }
  }

  /** The specs fire at every tick from the window's start to its end, and never else. */
  predicate Covers(window: Window, specs: seq<CalendarSpec>) {
    var start, interval, n := window.Start(), window.interval, |Firings(specs)|;
    n > 0 && Firings(specs) == Ticks(start, interval, n) &&
    Tick(start, interval, n - 1) <= window.End() < Tick(start, interval, n)
  }

  lemma SpecsCover(window: Window, n: nat)
    requires window.Valid() && n > 0
    requires Tick(window.Start(), window.interval, n - 1) <= window.End() < Tick(window.Start(), window.interval, n)
    ensures var specs := SpecsAfter(window.Start(), window.interval, n);
            && Lists(specs, HoursAfter(window.Start(), window.interval, n),
                     MinutesAfter(window.Start(), window.interval, n))
            && Tidy(specs) && Covers(window, specs)
  {
    AfterTicks(window.Start(), window.interval, n);
    TicksAreSpaced(window.Start(), window.interval, n);
  }

  /** In minutes of the day: start, start + interval, and so on, (end - start) / interval + 1 times. */
  lemma CoveredWindow(window: Window, specs: seq<CalendarSpec>)
    requires window.Valid() && Covers(window, specs)
    ensures var start, end := window.startHour * 60 + window.startMinute, window.endHour * 60 + window.endMinute;
            && |Firings(specs)| == (end - start) / window.interval + 1
            && forall k :: 0 <= k < |Firings(specs)| ==> Firings(specs)[k] == start + k * window.interval
  {
    CoveredTicks(window, specs);
  }

  lemma CoveredTicks(window: Window, specs: seq<CalendarSpec>)
    requires window.Valid() && Covers(window, specs)
    ensures |Firings(specs)| == (window.End() - window.Start()) / window.interval + 1
    ensures forall k :: 0 <= k < |Firings(specs)| ==> Firings(specs)[k] == window.Start() + k * window.interval
  {
    var start, end, interval, n := window.Start(), window.End(), window.interval, |Firings(specs)|;
    TicksAreSpaced(start, interval, n);
    TickIsMultiple(start, interval, n - 1);
    TickIsMultiple(start, interval, n);
    assert n * interval == (n - 1) * interval + interval;
    QuotientIs(end - start, interval, n - 1, end - start - (n - 1) * interval);
  }

  /** Array.from over the map's entries. */
  function Entries(ghost specs: seq<CalendarSpec>, hours: seq<nat>, minutesByHour: map<nat, seq<nat>>)
    : (r: seq<CalendarSpec>)
    requires Lists(specs, hours, minutesByHour)
    ensures r == specs
  {
    seq(|hours|, i requires 0 <= i < |hours| && hours[i] in minutesByHour =>
          CalendarSpec(hours[i], minutesByHour[hours[i]]))
  }

  /**
  buildWindowedCalendarSpecs; None stands for the error of a window that ends before it starts.
  */
  method BuildWindowedCalendarSpecs(window: Window) returns (r: Option<seq<CalendarSpec>>)
    requires window.Valid()
    ensures r.None? <==> window.startHour > window.endHour ||
                         (window.startHour == window.endHour && window.startMinute > window.endMinute)
    ensures r.Some? ==> Tidy(r.value) && Covers(window, r.value)
  {
    var start, end, interval := window.Start(), window.End(), window.interval;
    if start > end {
      return None;
    }
    var hours: seq<nat> := [];
    var minutesByHour: map<nat, seq<nat>> := map[];
    var current := start;
    ghost var n := 0;
    while current <= end
      invariant current == Tick(start, interval, n)
      invariant if n == 0 then current <= end else Tick(start, interval, n - 1) <= end
      invariant hours == HoursAfter(start, interval, n) && minutesByHour == MinutesAfter(start, interval, n)
      decreases end + interval - current as int
    {
      var hour, minute := current / 60, current % 60;
      if hour !in minutesByHour {
        hours := hours + [hour];
      }
      minutesByHour := Push(minutesByHour, hour, minute);
      current, n := current + interval, n + 1;
    }
    SpecsCover(window, n);
    return Some(Entries(SpecsAfter(start, interval, n), hours, minutesByHour));
  }
}
