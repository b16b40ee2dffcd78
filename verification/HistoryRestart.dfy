/**
 A clean restart cannot be seen: whatever a run of records, prunings, flushes and restarts does, every
 chart shows what the log of all samples ever recorded shows.
 */
module HistoryRestart {
  import opened Octets
  import opened Wrappers
  import opened HistoryRing
  import opened HistoryWire
  import opened HistoryFile
  import opened HistoryRoundTrip
  import opened HistoryLog

  /* One series against its log. */

  /** The ring's newest slot has come, and in its window as of slot `now` it reads what the log reads. */
  ghost predicate FineAgrees(t: Track, log: SampleLog, now: int) {
    && t.Valid() && t.n == FINE_SLOTS && 0 <= t.head <= now
    && forall s :: s > now - FINE_SLOTS ==> t.At(s) == LastIn(log, s)
  }

  ghost predicate CoarseAgrees(p: Platform, t: Track, log: SampleLog, now: int) {
    && t.Valid() && t.n == COARSE_SLOTS && 0 <= t.head <= now
    && forall s :: s > now - COARSE_SLOTS ==> t.At(s) == MinuteOf(p, log, s)
  }

  ghost predicate Agrees(p: Platform, ser: Series, log: SampleLog, now: int) {
    FineAgrees(ser.fine, log, FineSlot(now)) && CoarseAgrees(p, ser.coarse, log, CoarseSlot(now))
  }

  lemma SlotsMonotone(a: int, b: int)
    requires a <= b
    ensures FineSlot(a) <= FineSlot(b) && CoarseSlot(a) <= CoarseSlot(b)
  {
  }

  lemma SlotsStart()
    ensures FineSlot(0) == 0 && CoarseSlot(0) == 0
  {
  }

  lemma AgreesLater(p: Platform, ser: Series, log: SampleLog, now: int, later: int)
    requires Agrees(p, ser, log, now) && now <= later
    ensures Agrees(p, ser, log, later)
  {
    SlotsMonotone(now, later);
  }

  lemma FineSampled(t: Track, log: SampleLog, at: int, v: Number)
    requires FineAgrees(t, log, FineSlot(at))
    ensures FineAgrees(t.Put(FineSlot(at), v), log + [Sample(at, v)], FineSlot(at))
  {
    var next := t.Put(FineSlot(at), v);
    var longer := log + [Sample(at, v)];
    assert longer[..|log|] == log;
    forall s | s > FineSlot(at) - FINE_SLOTS
      ensures next.At(s) == LastIn(longer, s)
    {
      assert t.At(s) == LastIn(log, s);
    }
  }

  /** A minute with its newest slot in the window is all in the window. */
  lemma MinuteAgrees(t: Track, log: SampleLog, slot: int)
    requires FineAgrees(t, log, slot)
    ensures var m := FloorDiv(slot, FINE_PER_COARSE); Minute(t, m) == LogMinute(log, m)
  {
    var q := FINE_PER_COARSE * FloorDiv(slot, FINE_PER_COARSE);
    assert t.At(q) == LastIn(log, q) && t.At(q + 1) == LastIn(log, q + 1);
    assert t.At(q + 2) == LastIn(log, q + 2) && t.At(q + 3) == LastIn(log, q + 3);
  }

  lemma CoarseSampled(p: Platform, t: Track, log: SampleLog, at: int, v: Number)
    requires CoarseAgrees(p, t, log, CoarseSlot(at))
    ensures var longer := log + [Sample(at, v)];
            var avg := Average(p, LogMinute(longer, CoarseSlot(at)));
            CoarseAgrees(p, if IsNaN(avg) then t else t.Put(CoarseSlot(at), avg), longer, CoarseSlot(at))
  {
    var longer := log + [Sample(at, v)];
    var avg := Average(p, LogMinute(longer, CoarseSlot(at)));
    var next := if IsNaN(avg) then t else t.Put(CoarseSlot(at), avg);
    assert longer[..|log|] == log;
    forall s | s > CoarseSlot(at) - COARSE_SLOTS
      ensures next.At(s) == MinuteOf(p, longer, s)
    {
      assert t.At(s) == MinuteOf(p, log, s);
    }
  }

  lemma SampledAgrees(p: Platform, ser: Series, log: SampleLog, at: int, v: Number)
    requires Agrees(p, ser, log, at)
    ensures Agrees(p, Sampled(p, ser, at, v), log + [Sample(at, v)], at)
  {
    FineSampled(ser.fine, log, at, v);
    MinuteAgrees(ser.fine.Put(FineSlot(at), v), log + [Sample(at, v)], FineSlot(at));
    SlotsNest(at);
    CoarseSampled(p, ser.coarse, log, at, v);
  }

  /** Written at `now` and read at `later`, a series still agrees with the log. */
  lemma LoadAgrees(p: Platform, ser: Series, log: SampleLog, now: int, later: int)
    requires Agrees(p, ser, log, now) && now <= later && 0 <= now
    ensures Agrees(p, LoadSeries(ser, now, later).0, log, later)
    ensures !LoadSeries(ser, now, later).1 ==> Agrees(p, NO_SERIES, log, later)
  {
    hide LastIn, MinuteOf, Load, FineSlot, CoarseSlot;
    SlotsMonotone(now, later);
    SlotsMonotone(0, now);
    SlotsStart();
    LoadKeepsWindow(ser.fine, FineSlot(now), FineSlot(later));
    LoadKeepsWindow(ser.coarse, CoarseSlot(now), CoarseSlot(later));
    LoadedReads(ser.fine, FineSlot(now), FineSlot(later));
    LoadedReads(ser.coarse, CoarseSlot(now), CoarseSlot(later));
  }

  /** In the later window a loaded ring reads what the written one read. */
  lemma LoadedReads(t: Track, now: int, later: int)
    requires t.Valid() && now <= later && 0 <= later && t.head <= now
    ensures forall s :: s > later - t.n ==> Load(t, now, later).0.At(s) == t.At(s)
    ensures !Load(t, now, later).1 ==> forall s :: s > later - t.n ==> t.At(s) == NAN32
  {
    LoadKeepsWindow(t, now, later);
    var cut := Cut(t.held, later - t.n + 1, now);
    forall s | s > later - t.n
      ensures (s in cut <==> s in t.held) && (s in cut ==> cut[s] == t.held[s])
    {
    }
    if !Load(t, now, later).1 {
      assert cut == map[];
    }
  }

  /* All series against all logs. */

  function Held(subjects: Subjects, key: Bytes, name: Bytes): Series {
    SeriesOf(SubjectOf(subjects, key), name)
  }

  /** Nothing is held that was never recorded, and nothing recorded is missing from its window. */
  ghost predicate StoreAgrees(p: Platform, subjects: Subjects, logs: Logs, now: int) {
    && (forall k, n :: k in subjects && n in subjects[k].series ==> n in LogsOf(logs, k))
    && (forall k, n :: Agrees(p, Held(subjects, k, n), LogOf(logs, k, n), now))
  }

  /** No sample is newer, to the millisecond, than when its subject was last heard from. */
  ghost predicate SeenCovers(subjects: Subjects, logs: Logs) {
    forall k, n, i :: k in subjects && 0 <= i < |LogOf(logs, k, n)| ==>
      Millis(LogOf(logs, k, n)[i].at) <= Millis(subjects[k].seen)
  }

  lemma {:induction false} OldLog(p: Platform, log: SampleLog, seen: int, now: int)
    requires forall i :: 0 <= i < |log| ==> Millis(log[i].at) <= Millis(seen)
    requires now - seen > RETENTION
    ensures forall s :: s > FineSlot(now) - FINE_SLOTS ==> LastIn(log, s) == NAN32
    ensures forall s :: s > CoarseSlot(now) - COARSE_SLOTS ==> MinuteOf(p, log, s) == NAN32
  {
    if log != [] {
      var init := log[..|log| - 1];
      OldLog(p, init, seen, now);
      assert Millis(log[|log| - 1].at) <= Millis(seen);
      DayIsWindow(log[|log| - 1].at, seen, now);
    }
  }

  /** What was recorded over a day ago is out of both windows. */
  lemma DayIsWindow(at: int, seen: int, now: int)
    requires Millis(at) <= Millis(seen) && now - seen > RETENTION
    ensures FineSlot(at) <= FineSlot(now) - FINE_SLOTS && CoarseSlot(at) <= CoarseSlot(now) - COARSE_SLOTS
  {
    assert Millis(seen) + 86_400_000 <= Millis(now);
  }

  lemma EmptyAgrees(p: Platform, log: SampleLog, now: int)
    requires 0 <= now
    requires forall s :: s > FineSlot(now) - FINE_SLOTS ==> LastIn(log, s) == NAN32
    requires forall s :: s > CoarseSlot(now) - COARSE_SLOTS ==> MinuteOf(p, log, s) == NAN32
    ensures Agrees(p, NO_SERIES, log, now)
  {
    SlotsMonotone(0, now);
  }

  lemma PruneAgrees(p: Platform, subjects: Subjects, logs: Logs, now: int)
    requires StoreAgrees(p, subjects, logs, now) && SeenCovers(subjects, logs) && 0 <= now
    ensures StoreAgrees(p, Prune(subjects, now), logs, now) && SeenCovers(Prune(subjects, now), logs)
  {
    forall k, n
      ensures Agrees(p, Held(Prune(subjects, now), k, n), LogOf(logs, k, n), now)
    {
      assert Agrees(p, Held(subjects, k, n), LogOf(logs, k, n), now);
      if k in subjects && now - subjects[k].seen > RETENTION {
        OldLog(p, LogOf(logs, k, n), subjects[k].seen, now);
        EmptyAgrees(p, LogOf(logs, k, n), now);
      }
    }
  }

  lemma RecordAgrees(p: Platform, subjects: Subjects, logs: Logs, key: Bytes, at: int, values: map<Bytes, Gauge>)
    requires StoreAgrees(p, subjects, logs, at) && values != map[]
    ensures StoreAgrees(p, Record(p, subjects, key, at, values), RecordLog(logs, key, at, values), at)
  {
    hide Agrees, Sampled;
    var subjects', logs' := Record(p, subjects, key, at, values), RecordLog(logs, key, at, values);
    forall k, n
      ensures Agrees(p, Held(subjects', k, n), LogOf(logs', k, n), at)
    {
      var ser, log := Held(subjects, k, n), LogOf(logs, k, n);
      assert Agrees(p, ser, log, at);
      if k == key && n in values && values[n].Finite? {
        SampledAgrees(p, ser, log, at, values[n].single);
      } else {
        assert Held(subjects', k, n) == ser && LogOf(logs', k, n) == log;
      }
    }
  }

  lemma RecordCovers(p: Platform, subjects: Subjects, logs: Logs, key: Bytes, at: int, values: map<Bytes, Gauge>)
    requires SeenCovers(subjects, logs) && values != map[]
    requires forall n, i :: 0 <= i < |LogOf(logs, key, n)| ==> LogOf(logs, key, n)[i].at <= at
    ensures SeenCovers(Record(p, subjects, key, at, values), RecordLog(logs, key, at, values))
  {
    var subjects', logs' := Record(p, subjects, key, at, values), RecordLog(logs, key, at, values);
    forall k, n, i | k in subjects' && 0 <= i < |LogOf(logs', k, n)|
      ensures Millis(LogOf(logs', k, n)[i].at) <= Millis(subjects'[k].seen)
    {
      var log := LogOf(logs, k, n);
      if k == key && n in values && values[n].Finite? {
        assert LogOf(logs', k, n) == log + [Sample(at, values[n].single)];
      } else {
        assert LogOf(logs', k, n) == log;
      }
    }
  }

  lemma LoadedAgrees(p: Platform, subjects: Subjects, logs: Logs, now: int, later: int)
    requires StoreAgrees(p, subjects, logs, now) && 0 <= now <= later
    ensures StoreAgrees(p, Loaded(subjects, now, later), logs, later)
  {
    var subjects' := Loaded(subjects, now, later);
    forall k, n
      ensures Agrees(p, Held(subjects', k, n), LogOf(logs, k, n), later)
    {
      var ser, log := Held(subjects, k, n), LogOf(logs, k, n);
      assert Agrees(p, ser, log, now);
      if k in subjects && n in subjects[k].series {
        LoadAgrees(p, ser, log, now, later);
        LoadedHolds(subjects, k, n, now, later);
      } else {
        AgreesLater(p, NO_SERIES, log, now, later);
      }
    }
  }

  lemma LoadedHolds(subjects: Subjects, k: Bytes, n: Bytes, now: int, later: int)
    requires k in subjects && n in subjects[k].series
    ensures Held(Loaded(subjects, now, later), k, n)
         == var (got, held) := LoadSeries(subjects[k].series[n], now, later); if held then got else NO_SERIES
  {
    var got := LoadSubject(subjects[k], now, later);
    if LoadSeries(subjects[k].series[n], now, later).1 {
      assert n in got.series;
    }
  }

  /* Runs. */

  datatype Step =
    | Recorded(key: Bytes, at: int, values: map<Bytes, Gauge>)
    | Pruned(now: int)
    | Flushed(now: int, written: bool)
    | Restarted(now: int)

  function TimeOf(step: Step): int {
    match step
    case Recorded(_, at, _) => at
    case Pruned(now) => now
    case Flushed(now, _) => now
    case Restarted(now) => now
  }

  /** The store in memory, whether it changed since it was written, and the file. */
  datatype World = World(subjects: Subjects, dirty: bool, disk: Option<Bytes>)

  /** What a process that starts at `now` finds. */
  function Opened(p: Platform, disk: Option<Bytes>, now: int): Subjects {
    if disk.None? then map[]
    else
      var read := ReadFile(p, disk.value, now);
      if read.None? then map[] else read.value
  }

  ghost function Do(p: Platform, w: World, step: Step): World {
    match step
    case Recorded(key, at, values) =>
      if values == map[] then w else w.(subjects := Record(p, w.subjects, key, at, values), dirty := true)
    case Pruned(now) =>
      var left := Prune(w.subjects, now);
      w.(subjects := left, dirty := w.dirty || left != w.subjects)
    case Flushed(now, written) =>
      if !w.dirty || !written then w else World(w.subjects, false, Some(File(p, w.subjects, now)))
    case Restarted(now) => World(Opened(p, w.disk, now), false, w.disk)
  }

  function Log(logs: Logs, step: Step): Logs {
    if step.Recorded? && step.values != map[] then RecordLog(logs, step.key, step.at, step.values) else logs
  }

  ghost function After(p: Platform, run: seq<Step>): World {
    if run == [] then World(map[], false, None)
    else Do(p, After(p, run[..|run| - 1]), run[|run| - 1])
  }

  function LogsAfter(run: seq<Step>): Logs {
    if run == [] then map[] else Log(LogsAfter(run[..|run| - 1]), run[|run| - 1])
  }

  function Clock(run: seq<Step>): int {
    if run == [] then 0 else TimeOf(run[|run| - 1])
  }

  /** Lengths that fit the source's 64-bit lengths. */
  ghost predicate Countable(subjects: Subjects) {
    |subjects| < UINT64 && forall k :: k in subjects ==> |subjects[k].series| < UINT64
  }

  /**
   Times do not go back and fit the source's integers, names are ones the file can carry, and the process
   only ever stops after a flush that left nothing unwritten.
   */
  ghost predicate Admissible(p: Platform, run: seq<Step>) {
    run == [] ||
    var before, step := run[..|run| - 1], run[|run| - 1];
    && Admissible(p, before)
    && Clock(before) <= TimeOf(step) && TimeFits(TimeOf(step))
    && match step
       case Recorded(key, _, values) => |key| <= MAX_KEY && forall n :: n in values ==> |n| <= MAX_KEY
       case Pruned(_) => true
       case Flushed(_, _) => Countable(After(p, before).subjects)
       case Restarted(_) => !After(p, before).dirty
  }

  ghost predicate LogsPast(logs: Logs, now: int) {
    forall k, n, i :: 0 <= i < |LogOf(logs, k, n)| ==> LogOf(logs, k, n)[i].at <= now
  }

  ghost predicate SeenPast(subjects: Subjects, now: int) {
    forall k :: k in subjects ==> Millis(ZERO_TIME) <= Millis(subjects[k].seen) <= Millis(now)
  }

  /** Contents that stand for the logs at `now`. */
  ghost predicate Stands(p: Platform, subjects: Subjects, logs: Logs, heard: int, now: int) {
    StoreAgrees(p, subjects, logs, now) && SeenCovers(subjects, logs) && Readable(subjects) && SeenPast(subjects, heard)
  }

  ghost predicate Inv(p: Platform, w: World, logs: Logs, now: int) {
    && 0 <= now && TimeFits(now) && LogsPast(logs, now)
    && Stands(p, w.subjects, logs, now, now)
    && (!w.dirty ==> forall later :: now <= later ==> Stands(p, Opened(p, w.disk, later), logs, now, later))
  }

  lemma StandsLater(p: Platform, subjects: Subjects, logs: Logs, heard: int, now: int, later: int)
    requires Stands(p, subjects, logs, heard, now) && heard <= later && now <= later
    ensures Stands(p, subjects, logs, later, later)
  {
    forall k, n
      ensures Agrees(p, Held(subjects, k, n), LogOf(logs, k, n), later)
    {
      AgreesLater(p, Held(subjects, k, n), LogOf(logs, k, n), now, later);
    }
  }

  lemma InvLater(p: Platform, w: World, logs: Logs, now: int, later: int)
    requires Inv(p, w, logs, now) && now <= later && TimeFits(later)
    ensures Inv(p, w, logs, later)
  {
    StandsLater(p, w.subjects, logs, now, now, later);
    if !w.dirty {
      forall t | later <= t
        ensures Stands(p, Opened(p, w.disk, t), logs, later, t)
      {
        assert Stands(p, Opened(p, w.disk, t), logs, now, t);
      }
    }
  }

  lemma RecordPast(logs: Logs, key: Bytes, at: int, values: map<Bytes, Gauge>)
    requires LogsPast(logs, at)
    ensures LogsPast(RecordLog(logs, key, at, values), at)
  {
    var logs' := RecordLog(logs, key, at, values);
    forall k, n, i | 0 <= i < |LogOf(logs', k, n)|
      ensures LogOf(logs', k, n)[i].at <= at
    {
      var log := LogOf(logs, k, n);
      if k == key && n in values && values[n].Finite? {
        assert LogOf(logs', k, n) == log + [Sample(at, values[n].single)];
      } else {
        assert LogOf(logs', k, n) == log;
      }
    }
  }

  lemma RecordReadable(p: Platform, subjects: Subjects, key: Bytes, at: int, values: map<Bytes, Gauge>)
    requires Readable(subjects) && SeenPast(subjects, at) && values != map[] && 0 <= at
    requires |key| <= MAX_KEY && forall n :: n in values ==> |n| <= MAX_KEY
    ensures Readable(Record(p, subjects, key, at, values)) && SeenPast(Record(p, subjects, key, at, values), at)
  {
    assert key in subjects ==> KeysShort(key, subjects[key]);
  }

  lemma RecordKeeps(p: Platform, w: World, logs: Logs, key: Bytes, at: int, values: map<Bytes, Gauge>)
    requires Inv(p, w, logs, at) && values != map[]
    requires |key| <= MAX_KEY && forall n :: n in values ==> |n| <= MAX_KEY
    ensures Inv(p, Do(p, w, Recorded(key, at, values)), RecordLog(logs, key, at, values), at)
  {
    RecordAgrees(p, w.subjects, logs, key, at, values);
    RecordCovers(p, w.subjects, logs, key, at, values);
    RecordPast(logs, key, at, values);
    RecordReadable(p, w.subjects, key, at, values);
  }

  lemma FlushKeeps(p: Platform, w: World, logs: Logs, now: int)
    requires p.Inverse() && Inv(p, w, logs, now) && Countable(w.subjects)
    ensures Inv(p, Do(p, w, Flushed(now, true)), logs, now)
  {
    hide Stands, LogsPast, SubjectsFit, Countable, Loaded, File, ReadFile, Readable;
    if w.dirty {
      Fits(p, w.subjects, logs, now);
      forall later | now <= later
        ensures Stands(p, Opened(p, Some(File(p, w.subjects, now)), later), logs, now, later)
      {
        FileRoundTrip(p, w.subjects, now, later);
        LoadedStands(p, w.subjects, logs, now, later);
      }
    }
  }

  lemma LoadedStands(p: Platform, subjects: Subjects, logs: Logs, now: int, later: int)
    requires Stands(p, subjects, logs, now, now) && 0 <= now <= later
    ensures Readable(subjects) && Stands(p, Loaded(subjects, now, later), logs, now, later)
  {
    LoadedAgrees(p, subjects, logs, now, later);
    LoadedSeen(subjects, now, later);
    hide StoreAgrees, Loaded, Millis;
  }

  lemma FitsOne(p: Platform, ser: Series, log: SampleLog, now: int)
    requires Agrees(p, ser, log, now) && 0 <= now && TimeFits(now)
    ensures SeriesFits(ser)
  {
    hide LastIn, MinuteOf;
  }

  lemma Fits(p: Platform, subjects: Subjects, logs: Logs, now: int)
    requires Stands(p, subjects, logs, now, now) && Countable(subjects) && 0 <= now && TimeFits(now)
    ensures SubjectsFit(subjects)
  {
    hide Agrees, SeriesFits, LastIn, MinuteOf, TimeFits;
    forall k, n | k in subjects && n in subjects[k].series
      ensures |n| < UINT64 && SeriesFits(subjects[k].series[n])
    {
      assert Agrees(p, Held(subjects, k, n), LogOf(logs, k, n), now);
      FitsOne(p, Held(subjects, k, n), LogOf(logs, k, n), now);
      assert KeysShort(k, subjects[k]);
    }
    assert Millis(ZERO_TIME) >= -INT64 && Millis(now) < INT64 by { ZeroFits(now); }
  }

  lemma ZeroFits(now: int)
    requires TimeFits(now)
    ensures Millis(ZERO_TIME) >= -INT64 && Millis(now) < INT64
  {
  }

  /** Loading keeps when a subject was last heard from, and invents no name. */
  lemma LoadedSeen(subjects: Subjects, now: int, later: int)
    ensures forall k :: k in Loaded(subjects, now, later) ==>
              && k in subjects && Millis(Loaded(subjects, now, later)[k].seen) == Millis(subjects[k].seen)
              && Loaded(subjects, now, later)[k].series.Keys <= subjects[k].series.Keys
  {
  }

  lemma {:induction false} RunKeeps(p: Platform, run: seq<Step>)
    requires p.Inverse() && Admissible(p, run)
    ensures Inv(p, After(p, run), LogsAfter(run), Clock(run))
  {
    if run == [] {
      forall later | 0 <= later
        ensures Stands(p, map[], map[], 0, later)
      {
        forall k, n
          ensures Agrees(p, Held(map[], k, n), LogOf(map[], k, n), later)
        {
          EmptyAgrees(p, [], later);
        }
      }
    } else {
      var before, step := run[..|run| - 1], run[|run| - 1];
      var w, logs, now := After(p, before), LogsAfter(before), TimeOf(step);
      RunKeeps(p, before);
      InvLater(p, w, logs, Clock(before), now);
      match step
      case Recorded(key, at, values) =>
        if values != map[] {
          RecordKeeps(p, w, logs, key, at, values);
        }
      case Pruned(_) => PruneAgrees(p, w.subjects, logs, now);
      case Flushed(_, written) =>
        if written {
          FlushKeeps(p, w, logs, now);
        }
      case Restarted(_) =>
    }
  }

  /* Charts. */

  lemma {:induction false} SameValues(p: Platform, ser: Series, log: SampleLog, fine: bool, lo: int, hi: int)
    requires forall s :: lo <= s <= hi ==>
      (if fine then ser.fine.At(s) == LastIn(log, s) else ser.coarse.At(s) == MinuteOf(p, log, s))
    ensures Values(if fine then ser.fine else ser.coarse, lo, hi) == LogValues(p, log, fine, lo, hi)
    decreases hi - lo
  {
    if lo <= hi {
      SameValues(p, ser, log, fine, lo + 1, hi);
    }
  }

  lemma SameLine(p: Platform, ser: Series, log: SampleLog, r: Range, now: int)
    requires Agrees(p, ser, log, now)
    ensures Line(ser, r, now) == LogLine(p, log, r, now)
  {
    SameValues(p, ser, log, r.Hour?, Oldest(r, now), Newest(r, now));
  }

  lemma {:induction false} NoPoints(vals: seq<F32>, first: int, step: nat)
    requires forall i :: 0 <= i < |vals| ==> IsNaN(vals[i])
    ensures Points(vals, first, step) == []
  {
    if vals != [] {
      NoPoints(vals[1..], first + 1, step);
    }
  }

  lemma {:induction false} EmptyValues(t: Track, lo: int, hi: int)
    requires t.held == map[]
    ensures forall i :: 0 <= i < |Values(t, lo, hi)| ==> Values(t, lo, hi)[i] == NAN32
    decreases hi - lo
  {
    if lo <= hi {
      EmptyValues(t, lo + 1, hi);
    }
  }

  lemma StandsShows(p: Platform, subjects: Subjects, logs: Logs, key: Bytes, r: Range, now: int)
    requires StoreAgrees(p, subjects, logs, now)
    ensures Query(subjects, key, r, now) == QueryLog(p, logs, key, r, now)
  {
    var shown, meant := Query(subjects, key, r, now), QueryLog(p, logs, key, r, now);
    forall n
      ensures n in shown <==> n in meant
      ensures n in shown ==> shown[n] == meant[n]
    {
      assert Agrees(p, Held(subjects, key, n), LogOf(logs, key, n), now);
      SameLine(p, Held(subjects, key, n), LogOf(logs, key, n), r, now);
      if n !in SubjectOf(subjects, key).series {
        var t := if r.Hour? then NO_SERIES.fine else NO_SERIES.coarse;
        EmptyValues(t, Oldest(r, now), Newest(r, now));
        NoPoints(Values(t, Oldest(r, now), Newest(r, now)), Oldest(r, now), StepMillis(r));
      }
    }
  }

  /**
   After any admissible run, restarts and prunings and failed writes in it or not, every chart of every
   range at any later time shows the log of all samples recorded.
   */
  lemma RestartIsInvisible(p: Platform, run: seq<Step>, key: Bytes, r: Range, now: int)
    requires p.Inverse() && Admissible(p, run) && Clock(run) <= now && TimeFits(now)
    ensures Query(After(p, run).subjects, key, r, now) == QueryLog(p, LogsAfter(run), key, r, now)
  {
    RunKeeps(p, run);
    InvLater(p, After(p, run), LogsAfter(run), Clock(run), now);
    StandsShows(p, After(p, run).subjects, LogsAfter(run), key, r, now);
  }

  /**
   Without the bound on names it fails: a clean restart keeps what is in the window exactly when every key
   and series name is one the reader believes, and with one longer name it loses the whole history.
   */
  lemma RestartKeepsExactly(p: Platform, w: World, now: int, later: int)
    requires p.Inverse() && SubjectsFit(w.subjects) && TimeFits(now) && w.dirty
    ensures Do(p, Do(p, w, Flushed(now, true)), Restarted(later)).subjects ==
            if Readable(w.subjects) then Loaded(w.subjects, now, later) else map[]
  {
    hide ReadFile, File, Readable, Loaded, SubjectsFit;
    FileRoundTrip(p, w.subjects, now, later);
  }

  /** So two runs that record the same samples show the same charts, whatever else either of them did. */
  lemma OnlySamplesCount(p: Platform, one: seq<Step>, other: seq<Step>, key: Bytes, r: Range, now: int)
    requires p.Inverse() && Admissible(p, one) && Admissible(p, other)
    requires Recordings(one) == Recordings(other)
    requires Clock(one) <= now && Clock(other) <= now && TimeFits(now)
    ensures Query(After(p, one).subjects, key, r, now) == Query(After(p, other).subjects, key, r, now)
  {
    RestartIsInvisible(p, one, key, r, now);
    RestartIsInvisible(p, other, key, r, now);
    LogsOfRecordings(one);
    LogsOfRecordings(other);
  }

  function Recordings(run: seq<Step>): seq<Step> {
    if run == [] then []
    else Recordings(run[..|run| - 1]) + if run[|run| - 1].Recorded? then [run[|run| - 1]] else []
  }

  lemma {:induction false} LogsOfRecordings(run: seq<Step>)
    ensures LogsAfter(Recordings(run)) == LogsAfter(run)
  {
    if run != [] {
      var before, step := run[..|run| - 1], run[|run| - 1];
      LogsOfRecordings(before);
      if step.Recorded? {
        assert (Recordings(before) + [step])[..|Recordings(before)|] == Recordings(before);
      } else {
        assert Recordings(run) == Recordings(before);
      }
    }
  }
}
