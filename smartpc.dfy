/** The SmartPC helpers of the web client: which instance states count as
    building or busy, the days a schedule frequency stands for, the uptime
    label and the status label. */
module SmartPc {
  import opened Text

  // ---------------------------------------------------------------------------
  // States

  /** The states in which an instance is still being built. */
  predicate IsBuilding(state: string) {
    state in ["initializing", "initialization", "pending"]
  }

  /** Building, or stopping: no action may be started. */
  predicate IsBusy(state: string) {
    IsBuilding(state) || state == "stopping"
  }

  /** The label shown for an instance status; an unknown status is shown as is. */
  function StatusText(status: string): (shown: string)
    ensures IsBuilding(status) ==> shown == "Building"
  {
    match status
    case "pending" => "Building"
    case "initializing" => "Building"
    case "initialization" => "Building"
    case "building" => "Building"
    case "running" => "Running"
    case "stopped" => "Stopped"
    case "starting" => "Starting"
    case "stopping" => "Stopping"
    case "idle" => "Idle"
    case "not_running" => "Not Running"
    case _ => status
  }

  /** The statuses the label knows. */
  const KnownStatuses: set<string> :=
    {"pending", "initializing", "initialization", "building", "running", "stopped", "starting",
     "stopping", "idle", "not_running"}

  // ---------------------------------------------------------------------------
  // Schedules

  const Weekdays: seq<string> := ["monday", "tuesday", "wednesday", "thursday", "friday"]
  const Weekend: seq<string> := ["saturday", "sunday"]
  const Everyday: seq<string> := ["monday", "tuesday", "wednesday", "thursday", "friday", "saturday", "sunday"]

  /** The days a schedule frequency stands for; an unknown frequency has none. */
  function DaysFromFrequency(frequency: string): (days: seq<string>)
    ensures frequency !in {"everyday", "weekdays", "weekends"} ==> days == []
  {
    match frequency
    case "everyday" => Everyday
    case "weekdays" => Weekdays
    case "weekends" => Weekend
    case _ => []
  }

  // ---------------------------------------------------------------------------
  // Uptime

  const SecondsPerDay: nat := 86400
  const SecondsPerHour: nat := 3600

  /** The three counters the label is built from. */
  datatype Clock = Clock(days: nat, hours: nat, minutes: nat)

  /** Whole days, the hours left within the day, the minutes left within the hour. */
  function ClockOf(seconds: nat): (c: Clock)
    ensures c.hours < 24 && c.minutes < 60
    ensures c.days * SecondsPerDay + c.hours * SecondsPerHour + c.minutes * 60 <= seconds
    ensures seconds < c.days * SecondsPerDay + c.hours * SecondsPerHour + c.minutes * 60 + 60
  {
    var c := Clock(seconds / SecondsPerDay, (seconds % SecondsPerDay) / SecondsPerHour, (seconds % SecondsPerHour) / 60);
    ClockDecomposes(seconds);
    c
  }

  /** The label's shape: nothing running, days and hours, hours and minutes, or minutes. */
  datatype Uptime = NotRunning | DaysHours(d: nat, h: nat) | HoursMinutes(h: nat, m: nat) | Minutes(m: nat)

  /** Which shape the label takes for a number of seconds. */
  function UptimeOf(seconds: nat): Uptime {
    if seconds == 0 then NotRunning
    else
      var c := ClockOf(seconds);
      if c.days > 0 then DaysHours(c.days, c.hours)
      else if c.hours > 0 then HoursMinutes(c.hours, c.minutes)
      else Minutes(c.minutes)
  }

  /** The text of a label. */
  function Render(u: Uptime): string {
    match u
    case NotRunning => "Not running"
    case DaysHours(d, h) => Decimal(d) + "d " + Decimal(h) + "h"
    case HoursMinutes(h, m) => Decimal(h) + "h " + Decimal(m) + "m"
    case Minutes(m) => Decimal(m) + "m"
  }

  /** `formatUptime` on a whole, non-negative number of seconds. */
  function FormatUptime(seconds: nat): (shown: string)
    ensures seconds == 0 <==> shown == "Not running"
  {
    var shown := Render(UptimeOf(seconds));
    assert seconds != 0 ==> '0' <= shown[0] <= '9';
    shown
  }

  // ---------------------------------------------------------------------------
  // Properties

  /** Every building state is busy. */
  lemma BuildingIsBusy(state: string)
    ensures IsBuilding(state) ==> IsBusy(state)
    ensures IsBusy(state) <==> state in {"initializing", "initialization", "pending", "stopping"}
  {
  }

  /** The label reads `Building` exactly for the building states, `building`,
      and a status already spelled `Building`; every unknown status is shown
      unchanged. */
  lemma StatusTextBuilding(status: string)
    ensures StatusText(status) == "Building"
        <==> IsBuilding(status) || status == "building" || status == "Building"
    ensures status !in KnownStatuses ==> StatusText(status) == status
  {
  }

  /** Weekdays and weekend days are disjoint and, in order, make up every day. */
  lemma FrequenciesPartitionWeek()
    ensures DaysFromFrequency("weekdays") + DaysFromFrequency("weekends") == DaysFromFrequency("everyday")
    ensures forall d :: d in DaysFromFrequency("weekdays") ==> d !in DaysFromFrequency("weekends")
    ensures |DaysFromFrequency("everyday")| == 7
    ensures forall i, j :: 0 <= i < j < 7 ==> DaysFromFrequency("everyday")[i] != DaysFromFrequency("everyday")[j]
  {
    assert Weekdays + Weekend == Everyday;
    forall i, j | 0 <= i < j < 7 ensures Everyday[i] != Everyday[j] {
      assert Everyday[i][0] != Everyday[j][0] || Everyday[i][1] != Everyday[j][1];
    }
    forall d | d in Weekdays ensures d !in Weekend {
      assert d[0] != 's';
    }
  }

  /** The counters add up to the seconds, to the minute. */
  lemma ClockDecomposes(seconds: nat)
    ensures var d, h, m := seconds / SecondsPerDay, (seconds % SecondsPerDay) / SecondsPerHour, (seconds % SecondsPerHour) / 60;
            && h < 24 && m < 60
            && d * SecondsPerDay + h * SecondsPerHour + m * 60 <= seconds < d * SecondsPerDay + h * SecondsPerHour + m * 60 + 60
  {
    var d, r := seconds / SecondsPerDay, seconds % SecondsPerDay;
    var h, r2 := r / SecondsPerHour, r % SecondsPerHour;
    assert seconds == d * SecondsPerDay + r;
    assert r == h * SecondsPerHour + r2;
    assert seconds % SecondsPerHour == r2 by {
      assert seconds == (d * 24 + h) * SecondsPerHour + r2;
    }
  }

  /** The label shows days and hours exactly from one day on, hours and minutes
      exactly from one hour to a day, and minutes otherwise. */
  lemma UptimeShape(seconds: nat)
    ensures UptimeOf(seconds).DaysHours? <==> seconds >= SecondsPerDay
    ensures UptimeOf(seconds).HoursMinutes? <==> SecondsPerHour <= seconds < SecondsPerDay
    ensures UptimeOf(seconds).Minutes? <==> 0 < seconds < SecondsPerHour
    ensures UptimeOf(seconds).NotRunning? <==> seconds == 0
  {
  }

  /** Each shape ends in its own unit letter, so the shapes never share a label. */
  lemma RenderUnits(u: Uptime)
    ensures u.DaysHours? ==> Render(u)[|Render(u)| - 1] == 'h'
    ensures u.HoursMinutes? || u.Minutes? ==> Render(u)[|Render(u)| - 1] == 'm'
    ensures u.HoursMinutes? ==> 'h' in Render(u)
    ensures u.Minutes? ==> 'h' !in Render(u) && 'd' !in Render(u)
  {
    if u.HoursMinutes? {
      assert Render(u)[|Decimal(u.h)|] == 'h';
    }
    if u.Minutes? {
      var s := Decimal(u.m);
      assert Render(u) == s + "m";
      forall i | 0 <= i < |s| + 1 ensures Render(u)[i] != 'h' && Render(u)[i] != 'd' {
        if i < |s| {
          assert Render(u)[i] == s[i];
        }
      }
    }
  }
}
