/** An exchange calendar as a strictly increasing sequence of sessions.
    Times are whole seconds in UTC; a session opens and closes on its own date. */
module TradingCalendar {
  import opened Basics

  const DAY := 86400

  datatype Session = Session(day: int, open: int, close: int)

  /** The UTC date of a point in time. */
  function DayOf(t: int): int {
    t / DAY
  }

  ghost predicate IsCalendar(s: seq<Session>) {
    && (forall i :: 0 <= i < |s| ==>
          s[i].open < s[i].close && DayOf(s[i].open) == s[i].day && DayOf(s[i].close) == s[i].day)
    && (forall i, j :: 0 <= i < j < |s| ==> s[i].day < s[j].day)
  }

  type Calendar = s: seq<Session> | IsCalendar(s) witness []

  /** Index of the first session at or after `day`, searching from `from`. */
  function FirstFrom(cal: Calendar, day: int, from: nat): (r: nat)
    requires from <= |cal|
    requires forall i :: 0 <= i < from ==> cal[i].day < day
    ensures r <= |cal|
    ensures forall i :: 0 <= i < r ==> cal[i].day < day
    ensures r < |cal| ==> cal[r].day >= day
    decreases |cal| - from
  {
    if from == |cal| || cal[from].day >= day then from else FirstFrom(cal, day, from + 1)
  }

  /** The session of a date, or the next one; a date outside the calendar's range is an error. */
  function SessionOnOrAfter(cal: Calendar, day: int): (r: Option<nat>)
    ensures r.Some? ==> r.value < |cal| && cal[r.value].day >= day
    ensures r.Some? ==> forall i :: 0 <= i < r.value ==> cal[i].day < day
    ensures r.None? <==> |cal| == 0 || day < cal[0].day || cal[|cal| - 1].day < day
  {
    if |cal| == 0 || day < cal[0].day || cal[|cal| - 1].day < day then None
    else Some(FirstFrom(cal, day, 0))
  }

  /** The session held exactly on a date, if the date is a session. */
  function SessionOn(cal: Calendar, day: int): (r: Option<nat>)
    ensures r.Some? ==> r.value < |cal| && cal[r.value].day == day
    ensures r.None? ==> forall i :: 0 <= i < |cal| ==> cal[i].day != day
  {
    var i := FirstFrom(cal, day, 0);
    if i < |cal| && cal[i].day == day then Some(i) else None
  }

  /** Dates are strictly increasing, so a date names at most one session. */
  lemma {:induction false} SessionOnUnique(cal: Calendar, i: nat)
    requires i < |cal|
    ensures SessionOn(cal, cal[i].day) == Some(i)
  {
    assert cal[i].day == cal[i].day;
  }
}
