/**
 When a schedule fires, and the bounded minute-by-minute search for its next runs. Local time is a
 minute number counted from 0001-01-01T00:00.
 */
module CronSearch {
  import opened Calendar
  import Cron
  import opened Clock

  type Schedule = Cron.Schedule

  const MAX_LOOKAHEAD_MINUTES: nat := 4 * 366 * 24 * 60

  predicate TimeMatches(s: Schedule, t: nat) {
    MomentAt(t).minute in s.minutes && MomentAt(t).hour in s.hours
  }

  /** Month is always conjoined; the day fields are OR-ed when both are restricted. */
  predicate DayMatches(s: Schedule, day: nat) {
    var date := DateOf(day);
    var domOk := date.day in s.daysOfMonth;
    var dowOk := DayOfWeek(day) in s.daysOfWeek;
    date.month in s.months && if s.dayFieldsAreOr then domOk || dowOk else domOk && dowOk
  }

  predicate Matches(s: Schedule, t: int) {
    t >= 0 && TimeMatches(s, t) && DayMatches(s, MomentAt(t).day)
  }

  function MatchAt(s: Schedule, t: int): seq<int> {
    if Matches(s, t) then [t] else []
  }

  /** Every matching minute after `low`, up to `high`, in order. */
  function MatchesIn(s: Schedule, low: int, high: int): seq<int>
    decreases high - low
  {
    if high <= low then []
    else MatchesIn(s, low, high - 1) + MatchAt(s, high)
  }

  function Take(runs: seq<int>, k: nat): seq<int> {
    if |runs| <= k then runs else runs[..k]
  }

  /** The search window is the lookahead that follows the starting minute. */
  function Preview(s: Schedule, after: nat, k: nat): seq<int> {
    Take(MatchesIn(s, after, after + MAX_LOOKAHEAD_MINUTES), k)
  }

  lemma {:induction false} MatchesInExtends(s: Schedule, low: int, mid: int, high: int)
    requires mid <= high
    ensures MatchesIn(s, low, mid) <= MatchesIn(s, low, high)
    decreases high - mid
  {
    if mid < high {
      MatchesInExtends(s, low, mid, high - 1);
    }
  }

  /** The matching minutes of any stretch inside the window are a preview of that length. */
  lemma StretchIsPreview(s: Schedule, low: nat, high: int)
    requires low <= high <= low + MAX_LOOKAHEAD_MINUTES
    ensures MatchesIn(s, low, high) == Preview(s, low, |MatchesIn(s, low, high)|)
  {
    MatchesInExtends(s, low, high, low + MAX_LOOKAHEAD_MINUTES);
  }

  /** Nothing skipped, nothing extra, strictly increasing. */
  lemma {:induction false} MatchesInExact(s: Schedule, low: int, high: int)
    ensures forall t :: t in MatchesIn(s, low, high) <==> low < t <= high && Matches(s, t)
    ensures forall i, j :: 0 <= i < j < |MatchesIn(s, low, high)| ==>
            MatchesIn(s, low, high)[i] < MatchesIn(s, low, high)[j]
    decreases high - low
  {
    if low < high {
      MatchesInExact(s, low, high - 1);
      var before := MatchesIn(s, low, high - 1);
      assert forall i :: 0 <= i < |before| ==> before[i] in before;
    }
  }

  /** The search: advance one minute at a time, keep what matches, stop at `count` or at the horizon. */
  method NextRuns(s: Schedule, after: Instant, count: int) returns (found: seq<int>)
    ensures found == Preview(s, after.minute, if count < 1 then 0 else count)
  {
    found := [];
    if count < 1 {
      return;
    }
    ghost var start := after.minute;
    var cursor := after.minute;
    var tried := 0;
    while tried < MAX_LOOKAHEAD_MINUTES
      invariant tried <= MAX_LOOKAHEAD_MINUTES && cursor == start + tried
      invariant found == MatchesIn(s, start, cursor) && |found| < count
    {
      cursor := cursor + 1;
      tried := tried + 1;
      if Matches(s, cursor) {
        found := found + [cursor];
        if |found| == count {
          MatchesInExtends(s, start, cursor, start + MAX_LOOKAHEAD_MINUTES);
          return;
        }
      }
    }
  }

  /**
   The first `k` matching minutes strictly after `after`: increasing, inside the window, none skipped
   before the last one listed, and fewer than `k` only when the window holds no more.
   */
  lemma PreviewExact(s: Schedule, after: nat, k: nat)
    ensures var runs := Preview(s, after, k);
            && |runs| <= k
            && (forall i :: 0 <= i < |runs| ==> after < runs[i] <= after + MAX_LOOKAHEAD_MINUTES && Matches(s, runs[i]))
            && (forall i, j :: 0 <= i < j < |runs| ==> runs[i] < runs[j])
            && (forall t :: after < t <= after + MAX_LOOKAHEAD_MINUTES && Matches(s, t) ==>
                              t in runs || (|runs| == k && (k == 0 || runs[k - 1] < t)))
  {
    var all := MatchesIn(s, after, after + MAX_LOOKAHEAD_MINUTES);
    var runs := Preview(s, after, k);
    MatchesInExact(s, after, after + MAX_LOOKAHEAD_MINUTES);
    forall i | 0 <= i < |runs|
      ensures runs[i] == all[i] && all[i] in all
    {
    }
    forall t | after < t <= after + MAX_LOOKAHEAD_MINUTES && Matches(s, t)
      ensures t in runs || (|runs| == k && (k == 0 || runs[k - 1] < t))
    {
      assert t in all;
      var i :| 0 <= i < |all| && all[i] == t;
      if i < |runs| {
        assert runs[i] == t;
      }
    }
  }

  /** A longer preview extends a shorter one. */
  lemma PreviewPrefix(s: Schedule, after: nat, k: nat)
    ensures Preview(s, after, k) <= Preview(s, after, k + 1)
    ensures |Preview(s, after, k)| < k ==> Preview(s, after, k) == Preview(s, after, k + 1)
  {
  }

  /** With the OR flag off, one day field is unrestricted and only the other one decides. */
  lemma OneDayFieldDecides(s: Schedule, day: nat)
    requires Cron.WellFormed(s) && !s.dayFieldsAreOr
    ensures DayMatches(s, day) <==>
              DateOf(day).month in s.months &&
              (if s.daysOfMonth == Cron.Field.DayOfMonth.Full()
               then DayOfWeek(day) in s.daysOfWeek
               else DateOf(day).day in s.daysOfMonth)
  {
  }
}
