/**
 The store as the daemon runs it, step by step.  Every method is tied to what the run of a store does to
 its contents and its file.
 */
module HistoryStore {
  import opened Octets
  import opened Wrappers
  import opened HistoryRing
  import opened HistoryWire
  import opened HistoryFile
  import opened HistoryLog
  import opened HistoryCodec
  import opened HistoryRestart

  const FLUSH_EVERY: nat := 30 * 60_000 * NANOS

  /** The mean of the fine samples in a minute that exist, in their order. */
  method MinuteAverage(p: Platform, fine: Ring, minute: int) returns (avg: F32, ghost slots: seq<int>)
    requires fine.Valid()
    ensures HeldSlots(fine.log, minute, slots)
    ensures avg == if slots == [] then NAN32 else p.mean(Readings(fine.log, slots))
    ensures avg == Average(p, Minute(fine.log, minute))
  {
    hide Filter, Minute, Readings;
    ghost var all := Minute(fine.log, minute);
    MinuteAre(fine.log, minute);
    FilterNothing();
    var vals: seq<F32> := [];
    slots := HeldAre(fine.log, minute, 4);
    assert all[..4] == all;
    var q := minute * FINE_PER_COARSE;
    var slot := q;
    while slot < (minute + 1) * FINE_PER_COARSE
      invariant q <= slot <= q + FINE_PER_COARSE
      invariant vals == Filter(all[..slot - q])
    {
      var v := fine.At(slot);
      assert all[slot - q] == v;
      FilterSnoc(all[..slot - q], v);
      assert all[..slot + 1 - q] == all[..slot - q] + [v];
      if !IsNaN(v) {
        vals := vals + [v];
      }
      slot := slot + 1;
    }
    if |vals| == 0 {
      return NAN32, slots;
    }
    return p.mean(vals), slots;
  }

  lemma MinuteAre(fine: Track, minute: int)
    ensures |Minute(fine, minute)| == 4 && forall i :: 0 <= i < 4 ==> Minute(fine, minute)[i] == fine.At(4 * minute + i)
  {
  }

  lemma FilterNothing()
    ensures Filter([]) == []
  {
  }

  /** The first n slots of a minute that hold a number. */
  ghost predicate FirstHeldSlots(fine: Track, minute: int, n: nat, slots: seq<int>) {
    && (forall i, j :: 0 <= i < j < |slots| ==> slots[i] < slots[j])
    && forall s :: s in slots <==> 4 * minute <= s < 4 * minute + n && !IsNaN(fine.At(s))
  }

  /** What the filter leaves of them. */
  lemma {:induction false} HeldAre(fine: Track, minute: int, n: nat) returns (slots: seq<int>)
    requires n <= 4
    ensures FirstHeldSlots(fine, minute, n, slots)
    ensures Filter(Minute(fine, minute)[..n]) == Readings(fine, slots)
  {
    slots := [];
    if n > 0 {
      hide FirstHeldSlots, Filter, Minute;
      MinuteAre(fine, minute);
      var vals, s := Minute(fine, minute), 4 * minute + n - 1;
      slots := HeldAre(fine, minute, n - 1);
      assert vals[n - 1] == fine.At(s);
      assert vals[..n] == vals[..n - 1] + [vals[n - 1]];
      FilterSnoc(vals[..n - 1], vals[n - 1]);
      NextHeld(fine, minute, n - 1, slots);
      if !IsNaN(fine.At(s)) {
        slots := slots + [s];
      } else {
        assert Readings(fine, slots) + [] == Readings(fine, slots);
      }
    }
  }

  lemma NextHeld(fine: Track, minute: int, n: nat, slots: seq<int>)
    requires FirstHeldSlots(fine, minute, n, slots)
    ensures var s := 4 * minute + n;
            if IsNaN(fine.At(s)) then FirstHeldSlots(fine, minute, n + 1, slots)
            else && FirstHeldSlots(fine, minute, n + 1, slots + [s])
                 && Readings(fine, slots + [s]) == Readings(fine, slots) + [fine.At(s)]
  {
    hide Readings;
    var s := 4 * minute + n;
    forall x
      ensures x in slots + [s] <==> x in slots || x == s
    {
    }
    assert forall j :: 0 <= j < |slots| ==> slots[j] in slots;
    assert Readings(fine, slots + [s]) == Readings(fine, slots) + [fine.At(s)];
  }

  lemma {:induction false} FilterSnoc(vals: seq<F32>, v: F32)
    ensures Filter(vals + [v]) == Filter(vals) + if IsNaN(v) then [] else [v]
  {
    if vals == [] {
      assert [v][1..] == [];
    } else {
      assert (vals + [v])[1..] == vals[1..] + [v];
      FilterSnoc(vals[1..], v);
    }
  }

  /** One quantity as it lives in memory: two rings changed in place. */
  class LiveSeries {
    const fine: Ring
    const coarse: Ring

    ghost predicate Valid()
      reads this, fine, fine.vals, coarse, coarse.vals
    {
      && fine.Valid() && coarse.Valid() && fine != coarse && fine.vals != coarse.vals
      && fine.vals.Length == FINE_SLOTS && coarse.vals.Length == COARSE_SLOTS
    }

    ghost function Value(): Series
      reads fine, coarse
    {
      Series(fine.log, coarse.log)
    }

    constructor ()
      ensures Valid() && Value() == NO_SERIES
      ensures fresh(fine) && fresh(fine.vals) && fresh(coarse) && fresh(coarse.vals)
    {
      fine := new Ring(FINE_SLOTS);
      coarse := new Ring(COARSE_SLOTS);
    }

    /** One sample: its fine slot, and after it the minute as it now stands. */
    method Sample(p: Platform, at: int, v: Number)
      requires Valid()
      modifies fine, fine.vals, coarse, coarse.vals
      ensures Valid() && Value() == Sampled(p, old(Value()), at, v)
    {
      var fineSlot := FineSlot(at);
      var minute := FloorDiv(fineSlot, FINE_PER_COARSE);
      fine.Put(fineSlot, v);
      var avg;
      ghost var slots;
      avg, slots := MinuteAverage(p, fine, minute);
      if !IsNaN(avg) {
        coarse.Put(minute, avg);
      }
    }
  }

  /** The loop of Record over the values, in whatever order the map hands them out. */
  method RecordAll(p: Platform, sub: Subject, at: int, values: map<Bytes, Gauge>) returns (series: map<Bytes, Series>)
    ensures series == RecordInto(p, sub, at, values).series
  {
    hide RecordInto, Sampled;
    series := sub.series;
    var names := values.Keys;
    RecordNone(p, sub, at);
    assert (map n | n in values && n !in names :: values[n]) == map[];
    while names != {}
      invariant names <= values.Keys
      invariant series == RecordInto(p, sub, at, map n | n in values && n !in names :: values[n]).series
      decreases names
    {
      var name :| name in names;
      ghost var met := map n | n in values && n !in names :: values[n];
      names := names - {name};
      ghost var next := map n | n in values && n !in names :: values[n];
      assert next == met[name := values[name]];
      RecordStep(p, sub, at, met, next, name, values[name]);
      if values[name].Finite? {
        var ser := if name in series then series[name] else NO_SERIES;
        series := series[name := Sampled(p, ser, at, values[name].single)];
      }
    }
    assert (map n | n in values && n !in names :: values[n]) == values;
  }

  lemma RecordNone(p: Platform, sub: Subject, at: int)
    ensures RecordInto(p, sub, at, map[]).series == sub.series
  {
  }

  /** The points of one ring over the slots of a chart. */
  method LineOf(t: Track, first: int, last: int, step: nat) returns (points: seq<(int, F32)>)
    ensures points == Points(Values(t, first, last), first, step)
  {
    points := [];
    var slot := first;
    while slot <= last
      invariant first <= slot
      invariant points + Points(Values(t, slot, last), slot, step) == Points(Values(t, first, last), first, step)
    {
      var v := t.At(slot);
      PointsStep(points, t, slot, last, step);
      if !IsNaN(v) {
        points := points + [(slot * step, v)];
      }
      slot := slot + 1;
    }
    assert points + [] == points;
  }

  /** Where the file is kept.  A write replaces it whole or not at all. */
  class Disk {
    var content: Option<Bytes>
  }

  class Store {
    const p: Platform
    const disk: Disk
    var subjects: Subjects
    var dirty: bool
    var lastFlush: int
    var writes: nat

    ghost function State(): World
      reads this, disk
    {
      World(subjects, dirty, disk.content)
    }

    /** Loads the history that is kept, an empty one when there is none or it does not decode. */
    constructor Open(p: Platform, disk: Disk, now: int)
      ensures this.p == p && this.disk == disk && disk.content == old(disk.content)
      ensures subjects == Opened(p, disk.content, now) && !dirty && lastFlush == now && writes == 0
    {
      this.p, this.disk := p, disk;
      var kept: Subjects := map[];
      if disk.content.Some? {
        var raw := disk.content.value;
        if |raw| >= 5 && raw[..4] == MAGIC && raw[4] == FILE_VERSION {
          var body := p.unpack(raw[5..]);
          if body.Some? {
            var read := DecodeBody(body.value, now);
            if read.Some? {
              kept := read.value;
            }
          }
        }
      }
      subjects, dirty, lastFlush, writes := kept, false, now, 0;
    }

    method Record(key: Bytes, at: int, values: map<Bytes, Gauge>)
      modifies this`subjects, this`dirty
      ensures State() == Do(p, old(State()), Recorded(key, at, values))
    {
      if |values| == 0 {
        return;
      }
      var sub := if key in subjects then subjects[key] else Subject(ZERO_TIME, map[]);
      var seen := if at > sub.seen then at else sub.seen;
      var series := RecordAll(p, sub, at, values);
      subjects := subjects[key := Subject(seen, series)];
      dirty := true;
    }

    /** Deletes every subject not heard from within the retention. */
    method PruneOld(now: int) returns (deleted: nat)
      modifies this`subjects, this`dirty
      ensures State() == Do(p, old(State()), Pruned(now))
      ensures deleted == |old(subjects)| - |subjects|
      ensures forall k :: k in subjects <==> k in old(subjects) && now - old(subjects)[k].seen <= 86_400_000_000_000
      ensures forall k :: k in subjects ==> subjects[k] == old(subjects)[k]
    {
      deleted := 0;
      var left := subjects.Keys;
      while left != {}
        invariant left <= old(subjects).Keys && left <= subjects.Keys
        invariant subjects == map k | k in old(subjects) && (k in left || now - old(subjects)[k].seen <= RETENTION) :: old(subjects)[k]
        invariant deleted + |subjects| == |old(subjects)|
        invariant dirty == old(dirty)
        decreases left
      {
        var key :| key in left;
        left := left - {key};
        if now - subjects[key].seen > RETENTION {
          ghost var before := subjects;
          subjects := subjects - {key};
          assert subjects.Keys == before.Keys - {key};
          deleted := deleted + 1;
        }
      }
      assert subjects == Prune(old(subjects), now);
      if deleted > 0 {
        dirty := true;
      } else {
        PruneNone(old(subjects), now);
      }
    }

    /** One subject's history over a range ending now. */
    method Chart(key: Bytes, r: Range, now: int) returns (view: map<Bytes, seq<(int, F32)>>)
      ensures view == Query(subjects, key, r, now)
    {
      hide Points, Values;
      view := map[];
      if key !in subjects {
        return;
      }
      var series := subjects[key].series;
      var last := FloorDiv(Millis(now), StepMillis(r));
      var first := last - Slots(r) + 1;
      var names := series.Keys;
      while names != {}
        invariant names <= series.Keys
        invariant view == map n | n in series && n !in names && Line(series[n], r, now) != [] :: Line(series[n], r, now)
        decreases names
      {
        var name :| name in names;
        names := names - {name};
        var ring := if r.Hour? then series[name].fine else series[name].coarse;
        var points := LineOf(ring, first, last, StepMillis(r));
        if |points| > 0 {
          view := view[name := points];
        }
      }
    }

    /** Writes the file now if anything changed. */
    method Flush(now: int, written: bool) returns (ok: bool)
      modifies this`dirty, this`lastFlush, this`writes, disk
      ensures State() == Do(p, old(State()), Flushed(now, written))
      ensures ok == (written || !old(dirty))
      ensures if old(dirty) then lastFlush == now && writes == old(writes) + 1
              else lastFlush == old(lastFlush) && writes == old(writes)
    {
      if !dirty {
        return true;
      }
      var body := EncodeBody(subjects, now);
      var data := MAGIC + [FILE_VERSION] + p.pack(body);
      dirty := false;
      lastFlush := now;
      writes := writes + 1;
      if !written {
        dirty := true;
        return false;
      }
      disk.content := Some(data);
      return true;
    }

    /** Writes the file when something changed and the last write is FLUSH_EVERY ago. */
    method FlushIfDue(now: int, written: bool) returns (ok: bool)
      modifies this`dirty, this`lastFlush, this`writes, disk
      ensures var due := old(dirty) && now - old(lastFlush) >= 1_800_000_000_000;
              && State() == (if due then Do(p, old(State()), Flushed(now, written)) else old(State()))
              && writes == old(writes) + (if due then 1 else 0)
              && lastFlush == (if due then now else old(lastFlush))
    {
      var due := dirty && now - lastFlush >= FLUSH_EVERY;
      if !due {
        return true;
      }
      ok := Flush(now, written);
    }
  }

  lemma RecordStep(p: Platform, sub: Subject, at: int, met: map<Bytes, Gauge>, next: map<Bytes, Gauge>, name: Bytes, v: Gauge)
    requires name !in met && next == met[name := v]
    ensures var before, after := RecordInto(p, sub, at, met).series, RecordInto(p, sub, at, next).series;
            after == if v.Finite? then before[name := Sampled(p, if name in before then before[name] else NO_SERIES, at, v.single)]
                     else before
  {
    hide Sampled;
  }

  lemma PruneNone(subjects: Subjects, now: int)
    requires |Prune(subjects, now)| == |subjects|
    ensures Prune(subjects, now) == subjects
  {
    var kept := Prune(subjects, now);
    assert kept.Keys <= subjects.Keys;
    if k :| k in subjects && k !in kept {
      SubsetSmaller(kept.Keys, subjects.Keys, k);
    }
  }

  lemma SubsetSmaller(a: set<Bytes>, b: set<Bytes>, k: Bytes)
    requires a <= b && k in b && k !in a
    ensures |a| < |b|
  {
    assert a <= b - {k};
    SubsetNotLarger(a, b - {k});
  }

  lemma {:induction false} SubsetNotLarger(a: set<Bytes>, b: set<Bytes>)
    requires a <= b
    ensures |a| <= |b|
  {
    if a != {} {
      var x :| x in a;
      SubsetNotLarger(a - {x}, b - {x});
    }
  }

  lemma PointsStep(have: seq<(int, F32)>, t: Track, slot: int, last: int, step: nat)
    requires slot <= last
    ensures have + Points(Values(t, slot, last), slot, step)
         == (if IsNaN(t.At(slot)) then have else have + [(slot * step, t.At(slot))])
            + Points(Values(t, slot + 1, last), slot + 1, step)
  {
    var vals := Values(t, slot, last);
    assert vals[1..] == Values(t, slot + 1, last);
  }
}
