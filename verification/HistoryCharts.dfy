/**
 What a chart shows, said of the recordings alone: which quarters of a minute have a point, with which value,
 and what a minute is the mean of.  Times are nanoseconds, those of points milliseconds.
 */
module HistoryCharts {
  import opened Octets
  import opened Wrappers
  import opened HistoryRing
  import opened HistoryWire
  import opened HistoryFile
  import opened HistoryRoundTrip
  import opened HistoryLog
  import opened HistoryRestart
  import opened HistoryStore

  /** In the s-th fifteen seconds since 1970. */
  predicate InQuarter(t: int, s: int) {
    15_000_000_000 * s <= t < 15_000_000_000 * (s + 1)
  }

  predicate InMinute(t: int, m: int) {
    60_000_000_000 * m <= t < 60_000_000_000 * (m + 1)
  }

  /** A recording of a number under this key and name. */
  predicate Records(step: Step, key: Bytes, name: Bytes) {
    step.Recorded? && step.key == key && name in step.values && step.values[name].Finite?
  }

  predicate Samples(step: Step, key: Bytes, name: Bytes, s: int) {
    Records(step, key, name) && InQuarter(step.at, s)
  }

  ghost predicate Silent(run: seq<Step>, key: Bytes, name: Bytes, s: int) {
    forall i :: 0 <= i < |run| ==> !Samples(run[i], key, name, s)
  }

  /** The last recording that falls in a quarter. */
  ghost predicate Last(run: seq<Step>, key: Bytes, name: Bytes, s: int, i: int) {
    && 0 <= i < |run| && Samples(run[i], key, name, s)
    && forall j :: i < j < |run| ==> !Samples(run[j], key, name, s)
  }

  lemma QuarterIsSlot(t: int, s: int)
    ensures InQuarter(t, s) <==> FineSlot(t) == s
  {
  }

  lemma MinuteIsSlot(t: int, m: int)
    ensures InMinute(t, m) <==> CoarseSlot(t) == m
  {
  }

  /** One more step lengthens the log of a name by its own sample, or leaves it alone. */
  lemma LogGrows(run: seq<Step>, key: Bytes, name: Bytes)
    requires run != []
    ensures var last := run[|run| - 1];
            LogOf(LogsAfter(run), key, name) ==
            LogOf(LogsAfter(run[..|run| - 1]), key, name) +
            if Records(last, key, name) then [Sample(last.at, last.values[name].single)] else []
  {
    var before, last := LogsAfter(run[..|run| - 1]), run[|run| - 1];
    var log := LogOf(before, key, name);
    assert log + [] == log;
    if last.Recorded? && last.values != map[] {
      assert LogsAfter(run) == RecordLog(before, last.key, last.at, last.values);
    }
  }

  lemma LastInGrows(log: SampleLog, x: Sample, s: int)
    ensures LastIn(log + [x], s) == if InQuarter(x.at, s) then x.v else LastIn(log, s)
  {
    hide InQuarter;
    QuarterIsSlot(x.at, s);
    assert (log + [x])[..|log|] == log;
  }

  /** One more step is the last sample of its quarter, or changes nothing. */
  lemma LastGrows(run: seq<Step>, key: Bytes, name: Bytes, s: int, i: int)
    requires run != []
    ensures var n := |run| - 1;
            if Samples(run[n], key, name, s) then !Silent(run, key, name, s) && Last(run, key, name, s, n)
            else && (Silent(run, key, name, s) <==> Silent(run[..n], key, name, s))
                 && (Last(run[..n], key, name, s, i) ==> Last(run, key, name, s, i))
  {
    hide Samples;
  }

  lemma {:induction false} LastOfRun(run: seq<Step>, key: Bytes, name: Bytes, s: int) returns (i: int)
    ensures Silent(run, key, name, s) ==> LastIn(LogOf(LogsAfter(run), key, name), s) == NAN32
    ensures !Silent(run, key, name, s) ==>
              Last(run, key, name, s, i) && LastIn(LogOf(LogsAfter(run), key, name), s) == run[i].values[name].single
  {
    i := 0;
    if run == [] {
      assert LogOf(LogsAfter(run), key, name) == [];
    } else {
      hide InQuarter, LogOf, LogsAfter, LastIn, Silent, Last;
      var n := |run| - 1;
      var log := LogOf(LogsAfter(run[..n]), key, name);
      i := LastOfRun(run[..n], key, name, s);
      LastGrows(run, key, name, s, i);
      LogGrows(run, key, name);
      if Records(run[n], key, name) {
        LastInGrows(log, Sample(run[n].at, run[n].values[name].single), s);
      } else {
        assert log + [] == log;
      }
      if Samples(run[n], key, name, s) {
        i := n;
      } else if !Silent(run[..n], key, name, s) {
        LastIndex(run[..n], key, name, s, i);
        assert run[..n][i] == run[i];
      }
    }
  }

  lemma LastIndex(run: seq<Step>, key: Bytes, name: Bytes, s: int, i: int)
    requires Last(run, key, name, s, i)
    ensures 0 <= i < |run|
  {
  }

  /* A minute. */

  /** The quarters of a minute that have a recording, rising, and the last recording of each. */
  ghost predicate Quarters(run: seq<Step>, key: Bytes, name: Bytes, m: int, slots: seq<int>, picks: seq<int>) {
    && |slots| == |picks|
    && (forall i, j :: 0 <= i < j < |slots| ==> slots[i] < slots[j])
    && (forall s :: s in slots <==> 4 * m <= s < 4 * m + 4 && !Silent(run, key, name, s))
    && forall k :: 0 <= k < |picks| ==> Last(run, key, name, slots[k], picks[k])
  }

  /** Their values, in the order of the quarters. */
  ghost function Picked(run: seq<Step>, name: Bytes, picks: seq<int>): seq<F32>
    requires forall k :: 0 <= k < |picks| ==>
      0 <= picks[k] < |run| && run[picks[k]].Recorded? && name in run[picks[k]].values && run[picks[k]].values[name].Finite?
  {
    seq(|picks|, k requires 0 <= k < |picks| => run[picks[k]].values[name].single)
  }

  /** The same for the first n quarters of a minute. */
  ghost predicate FirstQuarters(run: seq<Step>, key: Bytes, name: Bytes, m: int, n: nat, slots: seq<int>, picks: seq<int>) {
    && |slots| == |picks|
    && (forall i, j :: 0 <= i < j < |slots| ==> slots[i] < slots[j])
    && (forall s :: s in slots <==> 4 * m <= s < 4 * m + n && !Silent(run, key, name, s))
    && forall k :: 0 <= k < |picks| ==> Last(run, key, name, slots[k], picks[k])
  }

  lemma {:induction false} PickFirst(run: seq<Step>, key: Bytes, name: Bytes, m: int, n: nat) returns (slots: seq<int>, picks: seq<int>)
    requires n <= 4
    ensures FirstQuarters(run, key, name, m, n, slots, picks)
    ensures Filter(LogMinute(LogOf(LogsAfter(run), key, name), m)[..n]) == Picked(run, name, picks)
  {
    hide Silent, InQuarter, LogsAfter, LogOf, LastIn;
    var vals := LogMinute(LogOf(LogsAfter(run), key, name), m);
    slots, picks := [], [];
    if n > 0 {
      var s := 4 * m + n - 1;
      slots, picks := PickFirst(run, key, name, m, n - 1);
      var i := LastOfRun(run, key, name, s);
      assert vals[..n] == vals[..n - 1] + [vals[n - 1]];
      assert vals[n - 1] == LastIn(LogOf(LogsAfter(run), key, name), s);
      FilterSnoc(vals[..n - 1], vals[n - 1]);
      hide Last, LogMinute, Filter;
      if !Silent(run, key, name, s) {
        MoreQuarters(run, key, name, m, n - 1, slots, picks, i);
        slots, picks := slots + [s], picks + [i];
      } else {
        SilentQuarter(run, key, name, m, n - 1, slots, picks);
      }
    }
  }

  lemma MoreQuarters(run: seq<Step>, key: Bytes, name: Bytes, m: int, n: nat, slots: seq<int>, picks: seq<int>, i: int)
    requires FirstQuarters(run, key, name, m, n, slots, picks)
    requires !Silent(run, key, name, 4 * m + n) && Last(run, key, name, 4 * m + n, i)
    ensures FirstQuarters(run, key, name, m, n + 1, slots + [4 * m + n], picks + [i])
    ensures Picked(run, name, picks + [i]) == Picked(run, name, picks) + [run[i].values[name].single]
  {
    hide Silent, InQuarter;
    var s := 4 * m + n;
    forall x
      ensures x in slots + [s] <==> 4 * m <= x < 4 * m + (n + 1) && !Silent(run, key, name, x)
    {
      assert x in slots + [s] <==> x in slots || x == s;
    }
    assert forall j :: 0 <= j < |slots| ==> slots[j] in slots;
  }

  lemma SilentQuarter(run: seq<Step>, key: Bytes, name: Bytes, m: int, n: nat, slots: seq<int>, picks: seq<int>)
    requires FirstQuarters(run, key, name, m, n, slots, picks) && Silent(run, key, name, 4 * m + n)
    ensures FirstQuarters(run, key, name, m, n + 1, slots, picks)
  {
    hide Silent, Last;
    forall x
      ensures x in slots <==> 4 * m <= x < 4 * m + (n + 1) && !Silent(run, key, name, x)
    {
      assert x == 4 * m + n ==> Silent(run, key, name, x);
    }
  }

  /** The mean of the last values recorded in each quarter of a minute that has one, in their order; a gap when none has. */
  lemma MinuteShows(p: Platform, run: seq<Step>, key: Bytes, name: Bytes, m: int) returns (slots: seq<int>, picks: seq<int>)
    ensures Quarters(run, key, name, m, slots, picks)
    ensures var shown := MinuteOf(p, LogOf(LogsAfter(run), key, name), m);
            && (slots == [] ==> shown == NAN32)
            && (slots != [] && !IsNaN(p.mean(Picked(run, name, picks))) ==> shown == p.mean(Picked(run, name, picks)))
  {
    hide Silent, InQuarter, LogsAfter, LogOf, LastIn, MinuteOf;
    slots, picks := PickFirst(run, key, name, m, 4);
    var log := LogOf(LogsAfter(run), key, name);
    assert LogMinute(log, m)[..4] == LogMinute(log, m);
    MinuteIsMean(p, log, m);
  }

  /** The quarters of a minute and their last recordings are these and no others. */
  lemma {:induction false} QuartersOnce(run: seq<Step>, key: Bytes, name: Bytes, m: int, a: seq<int>, picks: seq<int>, b: seq<int>, others: seq<int>)
    requires Quarters(run, key, name, m, a, picks) && Quarters(run, key, name, m, b, others)
    ensures a == b && picks == others
  {
    hide Silent, Samples;
    RisingOnce(a, b);
    forall k | 0 <= k < |picks|
      ensures picks[k] == others[k]
    {
      assert Last(run, key, name, a[k], picks[k]) && Last(run, key, name, a[k], others[k]);
    }
  }

  lemma {:induction false} RisingOnce(a: seq<int>, b: seq<int>)
    requires forall i, j :: 0 <= i < j < |a| ==> a[i] < a[j]
    requires forall i, j :: 0 <= i < j < |b| ==> b[i] < b[j]
    requires forall s :: s in a <==> s in b
    ensures a == b
  {
    assert a == [] || a[0] in a;
    assert b == [] || b[0] in b;
    if a != [] {
      assert a[0] in b && b[0] in a;
      forall s
        ensures s in a[1..] <==> s in b[1..]
      {
        assert s in a <==> s == a[0] || s in a[1..];
        assert s in b <==> s == b[0] || s in b[1..];
      }
      RisingOnce(a[1..], b[1..]);
      assert a == [a[0]] + a[1..] && b == [b[0]] + b[1..];
    }
  }

  /* The points of a chart. */

  /** A point is a slot that holds a number, at the slot's first instant. */
  ghost predicate PointAt(vals: seq<F32>, first: int, step: nat, point: (int, F32), slot: int) {
    first <= slot < first + |vals| && !IsNaN(vals[slot - first]) && point == (slot * step, vals[slot - first])
  }

  lemma {:induction false} PointsAre(vals: seq<F32>, first: int, step: nat, point: (int, F32))
    ensures point in Points(vals, first, step) <==> exists slot :: PointAt(vals, first, step, point, slot)
  {
    if vals != [] {
      var rest, next := vals[1..], first + 1;
      PointsAre(rest, next, step, point);
      if slot :| PointAt(vals, first, step, point, slot) {
        assert slot > first ==> PointAt(rest, next, step, point, slot);
      }
      if slot :| PointAt(rest, next, step, point, slot) {
        assert PointAt(vals, first, step, point, slot);
      }
      assert !IsNaN(vals[0]) && point == (first * step, vals[0]) ==> PointAt(vals, first, step, point, first);
    }
  }

  lemma {:induction false} PointsRise(vals: seq<F32>, first: int, step: nat)
    requires step > 0
    ensures forall k :: 0 <= k < |Points(vals, first, step)| ==> Points(vals, first, step)[k].0 >= first * step
    ensures forall j, k :: 0 <= j < k < |Points(vals, first, step)| ==>
      Points(vals, first, step)[j].0 < Points(vals, first, step)[k].0
  {
    if vals != [] {
      PointsRise(vals[1..], first + 1, step);
      assert (first + 1) * step == first * step + step;
    }
  }

  lemma {:induction false} LogValuesAre(p: Platform, log: SampleLog, fine: bool, lo: int, hi: int)
    requires lo <= hi + 1
    ensures |LogValues(p, log, fine, lo, hi)| == hi - lo + 1
    ensures forall i :: 0 <= i <= hi - lo ==>
      LogValues(p, log, fine, lo, hi)[i] == if fine then LastIn(log, lo + i) else MinuteOf(p, log, lo + i)
    decreases hi - lo
  {
    hide LastIn, MinuteOf;
    if lo <= hi {
      LogValuesAre(p, log, fine, lo + 1, hi);
    }
  }

  /** The chart of a name and whether it has this point. */
  predicate Shows(view: map<Bytes, seq<(int, F32)>>, name: Bytes, t: int, v: F32) {
    name in view && (t, v) in view[name]
  }

  lemma QueryLogShows(p: Platform, logs: Logs, key: Bytes, name: Bytes, r: Range, now: int, t: int, v: F32)
    ensures Shows(QueryLog(p, logs, key, r, now), name, t, v) <==> (t, v) in LogLine(p, LogOf(logs, key, name), r, now)
  {
    hide MinuteOf, LastIn;
    if name !in LogsOf(logs, key) {
      EmptyLine(p, r, now);
    }
  }

  lemma EmptyLine(p: Platform, r: Range, now: int)
    ensures LogLine(p, [], r, now) == []
  {
    var lo, hi := Oldest(r, now), Newest(r, now);
    LogValuesAre(p, [], r.Hour?, lo, hi);
    NoPoints(LogValues(p, [], r.Hour?, lo, hi), lo, StepMillis(r));
  }

  /** The point of an hour's chart that a recording is. */
  ghost predicate HourPoint(run: seq<Step>, key: Bytes, name: Bytes, newest: int, t: int, v: F32, i: int) {
    && t % 15_000 == 0 && newest - 240 < t / 15_000 <= newest
    && Last(run, key, name, t / 15_000, i) && v == run[i].values[name].single
  }

  /**
   The chart of an hour, after any admissible run: one point for each of the last 240 quarters in which
   something was recorded, the one of `now` included, at its first instant and with its last value.
   */
  lemma HourChartIsRecordings(p: Platform, run: seq<Step>, key: Bytes, name: Bytes, now: int, newest: int, t: int, v: F32)
    requires p.Inverse() && Admissible(p, run) && Clock(run) <= now && TimeFits(now) && InQuarter(now, newest)
    ensures Shows(Query(After(p, run).subjects, key, Hour, now), name, t, v) <==>
            exists i :: HourPoint(run, key, name, newest, t, v, i)
  {
    hide Silent, InQuarter, LastIn, After, Admissible, Query, QueryLog, Points, LogOf, LogsAfter;
    RestartIsInvisible(p, run, key, Hour, now);
    var log := LogOf(LogsAfter(run), key, name);
    QueryLogShows(p, LogsAfter(run), key, name, Hour, now, t, v);
    QuarterIsSlot(now, newest);
    var lo, hi := newest - 239, newest;
    var vals := LogValues(p, log, true, lo, hi);
    assert Oldest(Hour, now) == lo && Newest(Hour, now) == hi;
    LogValuesAre(p, log, true, lo, hi);
    PointsAre(vals, lo, 15_000, (t, v));
    if s :| PointAt(vals, lo, 15_000, (t, v), s) {
      var j := LastOfRun(run, key, name, s);
      assert HourPoint(run, key, name, newest, t, v, j);
    }
    if j :| HourPoint(run, key, name, newest, t, v, j) {
      var s := t / 15_000;
      var k := LastOfRun(run, key, name, s);
      SoundsOnce(run, key, name, s, j, k);
      assert vals[s - lo] == LastIn(log, s) == v;
      var n: Number := run[j].values[name].single;
      assert t == s * 15_000;
      assert PointAt(vals, lo, 15_000, (t, v), s);
    }
  }

  lemma SoundsOnce(run: seq<Step>, key: Bytes, name: Bytes, s: int, i: int, j: int)
    requires Last(run, key, name, s, i)
    ensures !Silent(run, key, name, s) && (Last(run, key, name, s, j) ==> i == j)
  {
    hide Samples;
  }

  /**
   The charts of six hours and of a day: a minute in their window has a point exactly when something was
   recorded in it, and the point is the mean of the last values of its quarters where that is a number.
   */
  lemma LongChartIsMeans(p: Platform, run: seq<Step>, key: Bytes, name: Bytes, r: Range, now: int, newest: int, m: int, v: F32,
                         slots: seq<int>, picks: seq<int>)
    requires p.Inverse() && Admissible(p, run) && Clock(run) <= now && TimeFits(now) && !r.Hour? && InMinute(now, newest)
    requires Quarters(run, key, name, m, slots, picks) && (slots == [] || !IsNaN(p.mean(Picked(run, name, picks))))
    ensures Shows(Query(After(p, run).subjects, key, r, now), name, 60_000 * m, v) <==>
            slots != [] && newest - (if r.SixHours? then 360 else 1440) < m <= newest && v == p.mean(Picked(run, name, picks))
  {
    hide Silent, InMinute, LastIn, MinuteOf, After, Admissible, Query, QueryLog, Points, LogOf, LogsAfter;
    RestartIsInvisible(p, run, key, r, now);
    var log := LogOf(LogsAfter(run), key, name);
    QueryLogShows(p, LogsAfter(run), key, name, r, now, 60_000 * m, v);
    MinuteIsSlot(now, newest);
    var a, b := MinuteShows(p, run, key, name, m);
    QuartersOnce(run, key, name, m, slots, picks, a, b);
    var lo, hi := newest - (if r.SixHours? then 359 else 1439), newest;
    var vals := LogValues(p, log, false, lo, hi);
    assert Oldest(r, now) == lo && Newest(r, now) == hi && StepMillis(r) == 60_000;
    LogValuesAre(p, log, false, lo, hi);
    PointsAre(vals, lo, 60_000, (60_000 * m, v));
    if lo <= m <= hi && slots != [] && v == p.mean(Picked(run, name, picks)) {
      assert PointAt(vals, lo, 60_000, (60_000 * m, v), m);
    }
  }

  /** The points of a chart stand in the order of their times, no two at one. */
  lemma ChartsRise(subjects: Subjects, key: Bytes, name: Bytes, r: Range, now: int)
    requires name in Query(subjects, key, r, now)
    ensures var line := Query(subjects, key, r, now)[name];
            forall j, k :: 0 <= j < k < |line| ==> line[j].0 < line[k].0
  {
    var ser := SubjectOf(subjects, key).series[name];
    PointsRise(Values(if r.Hour? then ser.fine else ser.coarse, Oldest(r, now), Newest(r, now)), Oldest(r, now), StepMillis(r));
  }
}
