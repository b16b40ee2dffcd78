/**
 What becomes of a history with names longer than the reader of the file believes.  Nothing bounds a name
 on its way in, so the runs here record names of any length a machine can hold.
 */
module HistoryLongNames {
  import opened Octets
  import opened Wrappers
  import opened HistoryRing
  import opened HistoryWire
  import opened HistoryFile
  import opened HistoryRoundTrip
  import opened HistoryLog
  import opened HistoryRestart

  /**
   Times do not go back and fit the source's integers, and so do lengths; names are as they come, and the
   process may stop at any time.
   */
  ghost predicate Timely(p: Platform, run: seq<Step>) {
    run == [] ||
    var before, step := run[..|run| - 1], run[|run| - 1];
    && Timely(p, before)
    && Clock(before) <= TimeOf(step) && TimeFits(TimeOf(step))
    && match step
       case Recorded(key, _, values) => |key| < UINT64 && forall n :: n in values ==> |n| < UINT64
       case Flushed(_, _) => Countable(After(p, before).subjects)
       case _ => true
  }

  /** The newest slots of both tiers have come. */
  ghost predicate Come(ser: Series, now: int) {
    ser.Valid() && 0 <= ser.fine.head <= FineSlot(now) && 0 <= ser.coarse.head <= CoarseSlot(now)
  }

  ghost predicate AllCome(series: map<Bytes, Series>, now: int) {
    forall n :: n in series ==> |n| < UINT64 && Come(series[n], now)
  }

  ghost predicate Heard(key: Bytes, sub: Subject, now: int) {
    |key| < UINT64 && Millis(ZERO_TIME) <= Millis(sub.seen) <= Millis(now) && AllCome(sub.series, now)
  }

  /** Everything that is held can be written to the file. */
  ghost predicate Writable(subjects: Subjects, now: int) {
    forall k :: k in subjects ==> Heard(k, subjects[k], now)
  }

  /** So is everything a start would find. */
  ghost predicate Inv(p: Platform, w: World, now: int) {
    && 0 <= now && TimeFits(now) && Writable(w.subjects, now)
    && forall later :: now <= later ==> Writable(Opened(p, w.disk, later), later)
  }

  lemma WritableFits(subjects: Subjects, now: int)
    requires Writable(subjects, now) && Countable(subjects) && 0 <= now && TimeFits(now)
    ensures SubjectsFit(subjects)
  {
    hide TimeFits, AllCome, AllFit;
    ZeroFits(now);
    forall k | k in subjects
      ensures SubjectFits(k, subjects[k])
    {
      assert Heard(k, subjects[k], now);
      AllComeFit(subjects[k].series, now);
    }
  }

  lemma AllComeFit(series: map<Bytes, Series>, now: int)
    requires AllCome(series, now) && 0 <= now && TimeFits(now)
    ensures AllFit(series)
  {
    hide Come, SeriesFits;
    forall n | n in series
      ensures SeriesFits(series[n])
    {
      ComeFits(series[n], now);
    }
  }

  lemma ComeFits(ser: Series, now: int)
    requires Come(ser, now) && 0 <= now && TimeFits(now)
    ensures SeriesFits(ser)
  {
  }

  lemma WritableLater(subjects: Subjects, now: int, later: int)
    requires Writable(subjects, now) && now <= later
    ensures Writable(subjects, later)
  {
    SlotsMonotone(now, later);
    forall k | k in subjects
      ensures Heard(k, subjects[k], later)
    {
      hide FineSlot, CoarseSlot;
      assert Heard(k, subjects[k], now);
    }
  }

  lemma SampledComes(p: Platform, ser: Series, at: int, v: Number)
    requires Come(ser, at)
    ensures Come(Sampled(p, ser, at, v), at)
  {
    SlotsNest(at);
  }

  lemma RecordWritable(p: Platform, subjects: Subjects, key: Bytes, at: int, values: map<Bytes, Gauge>)
    requires Writable(subjects, at) && 0 <= at && |key| < UINT64 && forall n :: n in values ==> |n| < UINT64
    ensures Writable(Record(p, subjects, key, at, values), at)
  {
    hide AllCome, RecordInto;
    if values != map[] {
      var sub := SubjectOf(subjects, key);
      assert key in subjects ==> Heard(key, sub, at);
      NoSeriesCome(at);
      RecordIntoCome(p, sub, at, values);
    }
  }

  lemma NoSeriesCome(now: int)
    requires 0 <= now
    ensures AllCome(map[], now) && Millis(ZERO_TIME) <= Millis(now)
  {
  }

  lemma RecordIntoCome(p: Platform, sub: Subject, at: int, values: map<Bytes, Gauge>)
    requires AllCome(sub.series, at) && 0 <= at && Millis(ZERO_TIME) <= Millis(sub.seen) <= Millis(at)
    requires forall n :: n in values ==> |n| < UINT64
    ensures var after := RecordInto(p, sub, at, values);
            AllCome(after.series, at) && Millis(ZERO_TIME) <= Millis(after.seen) <= Millis(at)
  {
    hide Come, Sampled, Millis;
    var after := RecordInto(p, sub, at, values);
    forall n | n in after.series
      ensures |n| < UINT64 && Come(after.series[n], at)
    {
      if n in values && values[n].Finite? {
        EmptyComes(at);
        SampledComes(p, SeriesOf(sub, n), at, values[n].single);
      }
    }
  }

  lemma EmptyComes(now: int)
    requires 0 <= now
    ensures Come(NO_SERIES, now)
  {
    SlotsMonotone(0, now);
  }

  lemma LoadComes(ser: Series, now: int, later: int)
    requires Come(ser, now) && 0 <= now <= later
    ensures Come(LoadSeries(ser, now, later).0, later)
  {
    SlotsMonotone(now, later);
    SlotsMonotone(0, now);
    LoadKeepsWindow(ser.fine, FineSlot(now), FineSlot(later));
    LoadKeepsWindow(ser.coarse, CoarseSlot(now), CoarseSlot(later));
  }

  lemma LoadedWritable(subjects: Subjects, now: int, later: int)
    requires Writable(subjects, now) && 0 <= now <= later
    ensures Writable(Loaded(subjects, now, later), later)
  {
    hide AllCome, LoadAllSeries, Millis;
    LoadedSeen(subjects, now, later);
    MillisMonotone(now, later);
    var after := Loaded(subjects, now, later);
    forall k | k in after
      ensures Heard(k, after[k], later)
    {
      assert Heard(k, subjects[k], now);
      LoadAllCome(subjects[k], now, later);
    }
  }

  lemma MillisMonotone(a: int, b: int)
    requires a <= b
    ensures Millis(a) <= Millis(b)
  {
  }

  lemma LoadAllCome(sub: Subject, now: int, later: int)
    requires AllCome(sub.series, now) && 0 <= now <= later
    ensures AllCome(LoadSubject(sub, now, later).series, later)
  {
    hide Come, LoadSeries;
    forall n | n in LoadSubject(sub, now, later).series
      ensures |n| < UINT64 && Come(LoadSubject(sub, now, later).series[n], later)
    {
      LoadComes(sub.series[n], now, later);
    }
  }

  lemma FlushKeepsWritable(p: Platform, w: World, now: int)
    requires p.Inverse() && Inv(p, w, now) && Countable(w.subjects)
    ensures Inv(p, Do(p, w, Flushed(now, true)), now)
  {
    hide Writable, Countable, Loaded, Readable, SubjectsFit, File, ReadFile;
    if w.dirty {
      WritableFits(w.subjects, now);
      forall later | now <= later
        ensures Writable(Opened(p, Some(File(p, w.subjects, now)), later), later)
      {
        FileRoundTrip(p, w.subjects, now, later);
        LoadedWritable(w.subjects, now, later);
        NothingWritable(later);
      }
    }
  }

  lemma NothingWritable(now: int)
    ensures Writable(map[], now)
  {
  }

  /** Whatever is recorded under whatever names, and wherever the process stops, memory can be written to the file. */
  lemma {:induction false} StaysWritable(p: Platform, run: seq<Step>)
    requires p.Inverse() && Timely(p, run)
    ensures Inv(p, After(p, run), Clock(run))
  {
    hide Writable, Countable, Record, Prune;
    if run == [] {
      forall later | 0 <= later
        ensures Writable(map[], later)
      {
        NothingWritable(later);
      }
      NothingWritable(0);
    } else {
      var before, step := run[..|run| - 1], run[|run| - 1];
      var w, now := After(p, before), TimeOf(step);
      StaysWritable(p, before);
      WritableLater(w.subjects, Clock(before), now);
      assert Inv(p, w, now);
      match step
      case Recorded(key, at, values) => RecordWritable(p, w.subjects, key, at, values);
      case Pruned(_) => PruneWritable(w.subjects, now);
      case Flushed(_, written) =>
        if written {
          FlushKeepsWritable(p, w, now);
        }
      case Restarted(_) =>
    }
  }

  lemma PruneWritable(subjects: Subjects, now: int)
    requires Writable(subjects, now)
    ensures Writable(Prune(subjects, now), now)
  {
  }

  /**
   After any run, a flush that writes and a start keep what is in the window exactly when every key and
   series name held is one the reader believes; with one longer name the start finds nothing at all.
   */
  lemma RunRestartKeepsExactly(p: Platform, run: seq<Step>, now: int, later: int)
    requires p.Inverse() && Timely(p, run) && Clock(run) <= now && TimeFits(now)
    requires After(p, run).dirty && Countable(After(p, run).subjects)
    ensures var held := After(p, run).subjects;
            After(p, run + [Flushed(now, true), Restarted(later)]).subjects ==
            if Readable(held) then Loaded(held, now, later) else map[]
  {
    hide Countable, Readable, Loaded, SubjectsFit, Writable, Do;
    var w := After(p, run);
    StaysWritable(p, run);
    WritableLater(w.subjects, Clock(run), now);
    WritableFits(w.subjects, now);
    RestartKeepsExactly(p, w, now, later);
    TwoMore(p, run, Flushed(now, true), Restarted(later));
  }

  lemma TwoMore(p: Platform, run: seq<Step>, one: Step, two: Step)
    ensures After(p, run + [one, two]) == Do(p, Do(p, After(p, run), one), two)
  {
    hide Do;
    assert (run + [one, two])[..|run| + 1] == run + [one];
    assert (run + [one])[..|run|] == run;
  }

  /* One such run. */

  /** One byte more than the reader believes. */
  const LONG_NAME: Bytes := seq(MAX_KEY + 1, _ => 0)

  const VALUE: Number := 0

  /** One sample of a subject with that name. */
  const ONE_SAMPLE: seq<Step> := [Recorded(LONG_NAME, 0, map[LONG_NAME := Finite(VALUE)])]

  /** It is recorded, written and started again in one moment: the chart of the log has its point, and nothing is held. */
  lemma LongNameForgets(p: Platform)
    requires p.Inverse()
    ensures Timely(p, ONE_SAMPLE)
    ensures After(p, ONE_SAMPLE + [Flushed(0, true), Restarted(0)]).subjects == map[]
    ensures LONG_NAME in QueryLog(p, LogsAfter(ONE_SAMPLE), LONG_NAME, Hour, 0)
    ensures Query(map[], LONG_NAME, Hour, 0) == map[]
  {
    hide SubjectsFit, Loaded, Writable, LogLine, Record, RecordInto, RecordLog;
    StartOfTime();
    OneSampleAfter(p);
    HeldUnderLongName(p);
    LoggedUnderLongName(p);
    RunRestartKeepsExactly(p, ONE_SAMPLE, 0, 0);
  }

  lemma OneSampleAfter(p: Platform)
    ensures Timely(p, ONE_SAMPLE) && Clock(ONE_SAMPLE) == 0
    ensures After(p, ONE_SAMPLE) == World(Record(p, map[], LONG_NAME, 0, map[LONG_NAME := Finite(VALUE)]), true, None)
    ensures LogsAfter(ONE_SAMPLE) == RecordLog(map[], LONG_NAME, 0, map[LONG_NAME := Finite(VALUE)])
  {
    hide Record, RecordLog;
    StartOfTime();
    assert ONE_SAMPLE[..0] == [];
    assert ONE_SAMPLE[0] == Recorded(LONG_NAME, 0, map[LONG_NAME := Finite(VALUE)]);
    assert LONG_NAME in map[LONG_NAME := Finite(VALUE)];
  }

  lemma StartOfTime()
    ensures TimeFits(0) && FineSlot(0) == 0
  {
  }

  lemma HeldUnderLongName(p: Platform)
    ensures var held := Record(p, map[], LONG_NAME, 0, map[LONG_NAME := Finite(VALUE)]);
            !Readable(held) && Countable(held)
  {
    hide Sampled;
    var held := Record(p, map[], LONG_NAME, 0, map[LONG_NAME := Finite(VALUE)]);
    assert held.Keys == {LONG_NAME} && held[LONG_NAME].series.Keys == {LONG_NAME};
    assert !KeysShort(LONG_NAME, held[LONG_NAME]);
  }

  lemma LoggedUnderLongName(p: Platform)
    ensures var logs := RecordLog(map[], LONG_NAME, 0, map[LONG_NAME := Finite(VALUE)]);
            LONG_NAME in QueryLog(p, logs, LONG_NAME, Hour, 0)
  {
    StartOfTime();
    var log := [Sample(0, VALUE)];
    LastPoint(p, log, Oldest(Hour, 0), Newest(Hour, 0), StepMillis(Hour));
  }

  /** A chart whose newest slot has a value has a point. */
  lemma {:induction false} LastPoint(p: Platform, log: SampleLog, lo: int, hi: int, step: nat)
    requires lo <= hi && !IsNaN(LastIn(log, hi))
    ensures Points(LogValues(p, log, true, lo, hi), lo, step) != []
    decreases hi - lo
  {
    if lo < hi {
      LastPoint(p, log, lo + 1, hi, step);
    }
  }
}
