/** The next-fire search of the schedule preview (`cronNextFire` in web/app.js): it skips whole
    days and tries only the allowed hours and minutes.  Times are minutes since the epoch. */
module CronSearch {
  import opened Ranking
  import opened Calendar
  import opened Wrappers

  /** A parsed expression: the allowed values of each field. */
  datatype Cron = Cron(minutes: set<int>, hours: set<int>, days: set<int>, months: set<int>, weekdays: set<int>)

  const DAY := 1440
  const HORIZON := 366 * 4 * DAY

  /** What the parser guarantees about the two fields that the search turns into times. */
  predicate InRange(c: Cron) {
    && (forall h :: h in c.hours ==> 0 <= h <= 23)
    && (forall m :: m in c.minutes ==> 0 <= m <= 59)
  }

  predicate DayMatches(c: Cron, day: int) {
    DateOf(day).month in c.months && DateOf(day).day in c.days && Weekday(day) in c.weekdays
  }

  predicate TimeMatches(c: Cron, t: int) {
    t % DAY / 60 in c.hours && t % 60 in c.minutes
  }

  /** Minute `t` satisfies all five fields. */
  predicate Matches(c: Cron, t: int) {
    DayMatches(c, t / DAY) && TimeMatches(c, t)
  }

  /** The reference: look at every minute in turn. */
  function Scan(c: Cron, t: int, limit: int): Option<int>
    decreases limit - t
  {
    if t > limit then None else if Matches(c, t) then Some(t) else Scan(c, t + 1, limit)
  }

  /** `r` is the earliest matching minute in [from, limit], if there is one. */
  predicate Earliest(c: Cron, from: int, limit: int, r: Option<int>) {
    match r
    case Some(t) => from <= t <= limit && Matches(c, t) && forall u :: from <= u < t ==> !Matches(c, u)
    case None => forall u :: from <= u <= limit ==> !Matches(c, u)
  }

  lemma {:induction false} ScanFindsEarliest(c: Cron, from: int, limit: int)
    ensures Earliest(c, from, limit, Scan(c, from, limit))
    decreases limit - from
  {
    if from <= limit && !Matches(c, from) {
      ScanFindsEarliest(c, from + 1, limit);
      var r := Scan(c, from + 1, limit);
      forall u | from <= u <= (if r.Some? then r.value - 1 else limit) ensures !Matches(c, u) {
        assert u == from || from + 1 <= u;
      }
    }
  }

  lemma EarliestIsUnique(c: Cron, from: int, limit: int, r: Option<int>, q: Option<int>)
    requires Earliest(c, from, limit, r) && Earliest(c, from, limit, q)
    ensures r == q
  {
  }

  /** The first whole minute at or after an instant given in milliseconds. */
  function RoundedStart(from: int): (t: int)
    ensures (t - 1) * 60000 < from <= t * 60000
  {
    if from % 60000 == 0 then from / 60000 else from / 60000 + 1
  }

  /** What a minute of the day is made of. */
  lemma MinuteParts(day: int, hour: int, minute: int)
    requires 0 <= hour <= 23 && 0 <= minute <= 59
    ensures var t := day * DAY + hour * 60 + minute;
      t / DAY == day && t % DAY / 60 == hour && t % 60 == minute
  {
    var t := day * DAY + hour * 60 + minute;
    assert t == 60 * (24 * day + hour) + minute;
  }

  lemma PartsOfMinute(t: int)
    ensures var day, hour, minute := t / DAY, t % DAY / 60, t % 60;
      0 <= hour <= 23 && 0 <= minute <= 59 && t == day * DAY + hour * 60 + minute
  {
    var day, rest := t / DAY, t % DAY;
    assert t == 60 * (24 * day + rest / 60) + rest % 60;
    assert t % 60 == rest % 60;
  }

  /** The two inner loops: the first allowed time of one day that lies in [from, limit]. */
  method SearchDay(c: Cron, day: int, hours: seq<int>, minutes: seq<int>, from: int, limit: int)
    returns (r: Option<int>)
    requires InRange(c) && Elements(hours) == c.hours && Elements(minutes) == c.minutes
    requires forall i, j :: 0 <= i < j < |hours| ==> hours[i] < hours[j]
    requires forall i, j :: 0 <= i < j < |minutes| ==> minutes[i] < minutes[j]
    ensures r.Some? ==> from <= r.value <= limit && r.value / DAY == day && TimeMatches(c, r.value)
    ensures forall u :: from <= u <= limit && u / DAY == day && TimeMatches(c, u) ==> r.Some? && r.value <= u
  {
    assert forall m :: m in minutes ==> m in Elements(minutes);
    for i := 0 to |hours|
      invariant forall u :: from <= u <= limit && u / DAY == day && TimeMatches(c, u) ==> u % DAY / 60 !in hours[..i]
    {
      assert hours[i] in Elements(hours);
      for j := 0 to |minutes|
        invariant forall u :: from <= u <= limit && u / DAY == day && TimeMatches(c, u) ==> u % DAY / 60 !in hours[..i]
        invariant forall u :: from <= u <= limit && u / DAY == day && TimeMatches(c, u) && u % DAY / 60 == hours[i] ==>
          u % 60 !in minutes[..j]
      {
        assert minutes[j] in Elements(minutes);
        var possible := DayNumber(DateOf(day)) * DAY + hours[i] * 60 + minutes[j];
        RoundTrip(day);
        MinuteParts(day, hours[i], minutes[j]);
        if from <= possible <= limit {
          r := Some(possible);
          forall u | from <= u <= limit && u / DAY == day && TimeMatches(c, u) ensures possible <= u {
            LaterInDay(hours, minutes, i, j, day, u);
          }
          return;
        }
        forall u | from <= u <= limit && u / DAY == day && TimeMatches(c, u) && u % DAY / 60 == hours[i]
          ensures u % 60 != minutes[j]
        {
          PartsOfMinute(u);
        }
      }
    }
    r := None;
    assert hours[..|hours|] == hours;
    assert forall h :: h in c.hours ==> h in Elements(hours);
  }

  /** A time whose hour and minute were not tried before comes at or after the one being tried. */
  lemma LaterInDay(hours: seq<int>, minutes: seq<int>, i: int, j: int, day: int, u: int)
    requires 0 <= i < |hours| && 0 <= j < |minutes|
    requires forall k, l :: 0 <= k < l < |hours| ==> hours[k] < hours[l]
    requires forall k, l :: 0 <= k < l < |minutes| ==> minutes[k] < minutes[l]
    requires forall m :: m in minutes ==> 0 <= m <= 59
    requires u / DAY == day && u % DAY / 60 in hours && u % 60 in minutes
    requires u % DAY / 60 !in hours[..i] && (u % DAY / 60 == hours[i] ==> u % 60 !in minutes[..j])
    ensures day * DAY + hours[i] * 60 + minutes[j] <= u
  {
    PartsOfMinute(u);
    var k :| 0 <= k < |hours| && hours[k] == u % DAY / 60;
    var l :| 0 <= l < |minutes| && minutes[l] == u % 60;
    assert i <= k;
    assert minutes[j] in minutes;
  }

  /** `cronNextFire`: the earliest minute at or after the rounded start and within the horizon that
      matches all five fields, and none exactly when there is none. */
  method NextFire(c: Cron, from: int) returns (r: Option<int>)
    requires InRange(c)
    ensures Earliest(c, RoundedStart(from), RoundedStart(from) + HORIZON, r)
    ensures r == Scan(c, RoundedStart(from), RoundedStart(from) + HORIZON)
  {
    var candidate := RoundedStart(from);
    var limit := candidate + HORIZON;
    var hours := SortAscending(c.hours);
    var minutes := SortAscending(c.minutes);
    var day := candidate / DAY;
    ScanFindsEarliest(c, candidate, limit);
    while day * DAY <= limit
      invariant candidate / DAY <= day
      invariant forall u :: candidate <= u <= limit && u / DAY < day ==> !Matches(c, u)
      decreases limit - day * DAY
    {
      if DayMatches(c, day) {
        r := SearchDay(c, day, hours, minutes, candidate, limit);
        if r.Some? {
          forall u | candidate <= u < r.value ensures !Matches(c, u) {
            EarlierDay(u, r.value);
          }
          EarliestIsUnique(c, candidate, limit, r, Scan(c, candidate, limit));
          return;
        }
      }
      day := day + 1;
    }
    r := None;
    EarliestIsUnique(c, candidate, limit, r, Scan(c, candidate, limit));
  }

  lemma EarlierDay(u: int, t: int)
    requires u < t
    ensures u / DAY <= t / DAY
  {
  }
}
