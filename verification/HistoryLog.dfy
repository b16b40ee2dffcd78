/**
 What the operations of the history do to its contents, and the log a reader of the charts may believe
 in instead: every sample ever recorded, never pruned and never reloaded.
 */
module HistoryLog {
  import opened Octets
  import opened Wrappers
  import opened HistoryRing
  import opened HistoryWire
  import opened HistoryFile

  const RETENTION: nat := 86_400_000 * NANOS

  /** A float32 that is a number: finite or, when a finite double did not fit, an infinity. */
  type Number = w: F32 | !IsNaN(w) witness 0

  /** A recorded value: a finite double rounded to a float32, or one that is not recorded. */
  datatype Gauge = Finite(single: Number) | NotFinite

  datatype Range = Hour | SixHours | Day

  function Filter(vals: seq<F32>): seq<F32> {
    if vals == [] then []
    else if IsNaN(vals[0]) then Filter(vals[1..])
    else [vals[0]] + Filter(vals[1..])
  }

  /** The mean of the values there are, NaN when there is none. */
  function Average(p: Platform, vals: seq<F32>): F32 {
    if Filter(vals) == [] then NAN32 else p.mean(Filter(vals))
  }

  /** The slots of a minute that hold a number, rising, and no others. */
  ghost predicate HeldSlots(fine: Track, minute: int, slots: seq<int>) {
    && (forall i, j :: 0 <= i < j < |slots| ==> slots[i] < slots[j])
    && forall s :: s in slots <==> 4 * minute <= s < 4 * minute + 4 && !IsNaN(fine.At(s))
  }

  function Readings(fine: Track, slots: seq<int>): (vals: seq<F32>)
    ensures |vals| == |slots| && forall i :: 0 <= i < |slots| ==> vals[i] == fine.At(slots[i])
  {
    seq(|slots|, i requires 0 <= i < |slots| => fine.At(slots[i]))
  }

  /** The fine slots of a minute. */
  function Minute(fine: Track, minute: int): seq<F32> {
    var q := FINE_PER_COARSE * minute;
    [fine.At(q), fine.At(q + 1), fine.At(q + 2), fine.At(q + 3)]
  }

  /** One sample of one quantity: its fine slot, then the minute the slot is in. */
  function Sampled(p: Platform, ser: Series, at: int, v: Number): Series {
    var fine := ser.fine.Put(FineSlot(at), v);
    var minute := FloorDiv(FineSlot(at), FINE_PER_COARSE);
    var avg := Average(p, Minute(fine, minute));
    Series(fine, if IsNaN(avg) then ser.coarse else ser.coarse.Put(minute, avg))
  }

  /** The zero time of the source language, the first of January of the year 1. */
  const ZERO_TIME: int := -62_135_596_800_000 * NANOS

  function SubjectOf(subjects: Subjects, key: Bytes): Subject {
    if key in subjects then subjects[key] else Subject(ZERO_TIME, map[])
  }

  function SeriesOf(sub: Subject, name: Bytes): Series {
    if name in sub.series then sub.series[name] else NO_SERIES
  }

  function RecordInto(p: Platform, sub: Subject, at: int, values: map<Bytes, Gauge>): Subject {
    Subject(Max(sub.seen, at),
            map n | n in sub.series.Keys + values.Keys && (n in sub.series || values[n].Finite?)
              :: if n in values && values[n].Finite? then Sampled(p, SeriesOf(sub, n), at, values[n].single) else sub.series[n])
  }

  function Record(p: Platform, subjects: Subjects, key: Bytes, at: int, values: map<Bytes, Gauge>): Subjects {
    if values == map[] then subjects
    else subjects[key := RecordInto(p, SubjectOf(subjects, key), at, values)]
  }

  function Prune(subjects: Subjects, now: int): Subjects {
    map k | k in subjects && now - subjects[k].seen <= RETENTION :: subjects[k]
  }

  /* Charts. */

  function StepMillis(r: Range): nat {
    if r.Hour? then FINE_MILLIS else COARSE_MILLIS
  }

  function Slots(r: Range): nat {
    match r case Hour => FINE_SLOTS case SixHours => 360 case Day => COARSE_SLOTS
  }

  /** One point a slot that holds a value, oldest first, at the slot's first millisecond. */
  function Points(vals: seq<F32>, first: int, step: nat): seq<(int, F32)> {
    if vals == [] then []
    else (if IsNaN(vals[0]) then [] else [(first * step, vals[0])]) + Points(vals[1..], first + 1, step)
  }

  /** The newest slot a chart shows, and the oldest. */
  function Newest(r: Range, now: int): int { FloorDiv(Millis(now), StepMillis(r)) }
  function Oldest(r: Range, now: int): int { Newest(r, now) - Slots(r) + 1 }

  function Line(ser: Series, r: Range, now: int): seq<(int, F32)> {
    Points(Values(if r.Hour? then ser.fine else ser.coarse, Oldest(r, now), Newest(r, now)), Oldest(r, now), StepMillis(r))
  }

  /** What a chart shows: a line for every series with a point in range. */
  function Query(subjects: Subjects, key: Bytes, r: Range, now: int): map<Bytes, seq<(int, F32)>> {
    var series := SubjectOf(subjects, key).series;
    map n | n in series && Line(series[n], r, now) != [] :: Line(series[n], r, now)
  }

  /* The log. */

  datatype Sample = Sample(at: int, v: Number)

  type SampleLog = seq<Sample>
  type Logs = map<Bytes, map<Bytes, SampleLog>>

  /** The last value recorded in a fine slot. */
  function LastIn(log: SampleLog, slot: int): F32 {
    if log == [] then NAN32
    else
      var last := log[|log| - 1];
      if FineSlot(last.at) == slot then last.v else LastIn(log[..|log| - 1], slot)
  }

  function LogMinute(log: SampleLog, minute: int): seq<F32> {
    var q := FINE_PER_COARSE * minute;
    [LastIn(log, q), LastIn(log, q + 1), LastIn(log, q + 2), LastIn(log, q + 3)]
  }

  /**
   A minute's value: the mean of its fine slots as of the last sample in it that gave a mean.  The mean of
   numbers is not a number only when opposite infinities meet.
   */
  function MinuteOf(p: Platform, log: SampleLog, minute: int): F32 {
    if log == [] then NAN32
    else
      var before := MinuteOf(p, log[..|log| - 1], minute);
      var avg := Average(p, LogMinute(log, minute));
      if CoarseSlot(log[|log| - 1].at) != minute || IsNaN(avg) then before else avg
  }

  /** The log read at consecutive slots. */
  function LogValues(p: Platform, log: SampleLog, fine: bool, lo: int, hi: int): seq<F32>
    decreases hi - lo
  {
    if lo > hi then []
    else [if fine then LastIn(log, lo) else MinuteOf(p, log, lo)] + LogValues(p, log, fine, lo + 1, hi)
  }

  function LogLine(p: Platform, log: SampleLog, r: Range, now: int): seq<(int, F32)> {
    Points(LogValues(p, log, r.Hour?, Oldest(r, now), Newest(r, now)), Oldest(r, now), StepMillis(r))
  }

  function LogsOf(logs: Logs, key: Bytes): map<Bytes, SampleLog> {
    if key in logs then logs[key] else map[]
  }

  function LogOf(logs: Logs, key: Bytes, name: Bytes): SampleLog {
    if name in LogsOf(logs, key) then logs[key][name] else []
  }

  function QueryLog(p: Platform, logs: Logs, key: Bytes, r: Range, now: int): map<Bytes, seq<(int, F32)>> {
    var series := LogsOf(logs, key);
    map n | n in series && LogLine(p, series[n], r, now) != [] :: LogLine(p, series[n], r, now)
  }

  function RecordLog(logs: Logs, key: Bytes, at: int, values: map<Bytes, Gauge>): Logs {
    var known := LogsOf(logs, key);
    logs[key := map n | n in known.Keys + values.Keys && (n in known || values[n].Finite?)
                  :: if n in values && values[n].Finite? then LogOf(logs, key, n) + [Sample(at, values[n].single)] else known[n]]
  }

  /**
   A minute of the log is the mean of its fine slots wherever that mean is a number, and a gap where nothing
   was recorded.
   */
  lemma {:induction false} MinuteIsMean(p: Platform, log: SampleLog, minute: int)
    ensures !IsNaN(Average(p, LogMinute(log, minute))) ==> MinuteOf(p, log, minute) == Average(p, LogMinute(log, minute))
    ensures Filter(LogMinute(log, minute)) == [] ==> MinuteOf(p, log, minute) == NAN32
  {
    if log == [] {
      FilterNone(LogMinute(log, minute));
    } else {
      var init, last := log[..|log| - 1], log[|log| - 1];
      SlotsNest(last.at);
      if CoarseSlot(last.at) != minute {
        MinuteIsMean(p, init, minute);
        assert LogMinute(log, minute) == LogMinute(init, minute);
      } else {
        LastIsHeld(log, minute);
      }
    }
  }

  lemma LastIsHeld(log: SampleLog, minute: int)
    requires log != [] && CoarseSlot(log[|log| - 1].at) == minute
    ensures Filter(LogMinute(log, minute)) != []
  {
    var last := log[|log| - 1];
    SlotsNest(last.at);
    var i := FineSlot(last.at) - FINE_PER_COARSE * minute;
    assert LogMinute(log, minute)[i] == last.v;
    FilterHas(LogMinute(log, minute), i);
  }

  /** A minute in which something was recorded shows some number, whatever the mean of all of it is. */
  lemma {:induction false} RecordedMinuteShows(p: Platform, log: SampleLog, minute: int)
    requires p.SingleMeans() && Filter(LogMinute(log, minute)) != []
    ensures !IsNaN(MinuteOf(p, log, minute))
  {
    var vals := LogMinute(log, minute);
    if log == [] {
      FilterNone(vals);
    } else {
      var init, last := log[..|log| - 1], log[|log| - 1];
      SlotsNest(last.at);
      if CoarseSlot(last.at) != minute {
        assert vals == LogMinute(init, minute);
        RecordedMinuteShows(p, init, minute);
      } else if Filter(LogMinute(init, minute)) != [] {
        RecordedMinuteShows(p, init, minute);
      } else {
        var i := FineSlot(last.at) - FINE_PER_COARSE * minute;
        FilterEmpty(LogMinute(init, minute));
        assert vals[i] == last.v && forall j :: 0 <= j < |vals| && j != i ==> vals[j] == LogMinute(init, minute)[j];
        FilterOne(vals, i);
      }
    }
  }

  /** Exactly when a minute of the log is the mean of its fine slots: when that mean is a number, or nothing is in it. */
  lemma MinuteIsMeanExactly(p: Platform, log: SampleLog, minute: int)
    requires p.SingleMeans()
    ensures var vals := LogMinute(log, minute);
            MinuteOf(p, log, minute) == Average(p, vals) <==> !IsNaN(Average(p, vals)) || Filter(vals) == []
  {
    MinuteIsMean(p, log, minute);
    if Filter(LogMinute(log, minute)) != [] {
      RecordedMinuteShows(p, log, minute);
    }
  }

  /** In particular for samples that are finite as 32-bit numbers. */
  lemma MinuteIsMeanOfFinite(p: Platform, log: SampleLog, minute: int)
    requires p.FiniteMeans() && forall i :: 0 <= i < |log| ==> IsFinite(log[i].v)
    ensures MinuteOf(p, log, minute) == Average(p, LogMinute(log, minute))
  {
    MinuteIsMean(p, log, minute);
    var vals := LogMinute(log, minute);
    var q := FINE_PER_COARSE * minute;
    LastIsFinite(log, q);
    LastIsFinite(log, q + 1);
    LastIsFinite(log, q + 2);
    LastIsFinite(log, q + 3);
    FiniteAverage(p, vals);
  }

  lemma {:induction false} LastIsFinite(log: SampleLog, slot: int)
    requires forall i :: 0 <= i < |log| ==> IsFinite(log[i].v)
    ensures IsNaN(LastIn(log, slot)) || IsFinite(LastIn(log, slot))
  {
    if log != [] {
      LastIsFinite(log[..|log| - 1], slot);
    }
  }

  /** A minute of finite values and gaps has a number for its average unless it is all gaps. */
  lemma FiniteAverage(p: Platform, vals: seq<F32>)
    requires p.FiniteMeans() && |vals| <= FINE_PER_COARSE
    requires forall i :: 0 <= i < |vals| ==> IsNaN(vals[i]) || IsFinite(vals[i])
    ensures Filter(vals) == [] || !IsNaN(Average(p, vals))
  {
    FilterFinite(vals);
  }

  lemma {:induction false} FilterFinite(vals: seq<F32>)
    requires forall i :: 0 <= i < |vals| ==> IsNaN(vals[i]) || IsFinite(vals[i])
    ensures |Filter(vals)| <= |vals| && AllFinite(Filter(vals))
  {
    if vals != [] {
      FilterFinite(vals[1..]);
    }
  }

  lemma {:induction false} FilterEmpty(vals: seq<F32>)
    requires Filter(vals) == []
    ensures forall i :: 0 <= i < |vals| ==> IsNaN(vals[i])
  {
    if vals != [] {
      FilterEmpty(vals[1..]);
    }
  }

  lemma {:induction false} FilterOne(vals: seq<F32>, i: nat)
    requires i < |vals| && !IsNaN(vals[i]) && forall j :: 0 <= j < |vals| && j != i ==> IsNaN(vals[j])
    ensures Filter(vals) == [vals[i]]
  {
    if i == 0 {
      FilterNone(vals[1..]);
    } else {
      FilterOne(vals[1..], i - 1);
    }
  }

  /** The minute of a fine slot is the minute of the time. */
  lemma SlotsNest(t: int)
    ensures FloorDiv(FineSlot(t), FINE_PER_COARSE) == CoarseSlot(t)
  {
  }

  lemma {:induction false} FilterHas(vals: seq<F32>, i: nat)
    requires i < |vals| && !IsNaN(vals[i])
    ensures Filter(vals) != []
  {
    if IsNaN(vals[0]) {
      FilterHas(vals[1..], i - 1);
    }
  }

  lemma {:induction false} FilterNone(vals: seq<F32>)
    requires forall i :: 0 <= i < |vals| ==> IsNaN(vals[i])
    ensures Filter(vals) == []
  {
    if vals != [] {
      FilterNone(vals[1..]);
    }
  }
}
