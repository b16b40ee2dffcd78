/** Samples in any order, late ones included: what each ring then reads, and how the two tiers agree. */
module HistoryAnyOrder {
  import opened HistoryRing
  import opened HistoryWire
  import opened HistoryFile
  import opened HistoryLog

  /** A ring after a sequence of puts, oldest put first. */
  function PutAll(n: nat, puts: seq<(int, Number)>): Track {
    if puts == [] then EmptyTrack(n)
    else PutAll(n, puts[..|puts| - 1]).Put(puts[|puts| - 1].0, puts[|puts| - 1].1)
  }

  function LastPut(puts: seq<(int, Number)>, slot: int): F32 {
    if puts == [] then NAN32
    else if puts[|puts| - 1].0 == slot then puts[|puts| - 1].1
    else LastPut(puts[..|puts| - 1], slot)
  }

  function Head(puts: seq<(int, Number)>): int {
    if puts == [] then 0 else Max(Head(puts[..|puts| - 1]), puts[|puts| - 1].0)
  }

  /** A ring reads the last value put in a slot while the slot is in its window, and a gap otherwise. */
  lemma {:induction false} RingRefinesLog(n: nat, puts: seq<(int, Number)>, slot: int)
    requires n > 0
    ensures slot > Head(puts) ==> LastPut(puts, slot) == NAN32
    ensures var t := PutAll(n, puts);
            && t.Valid() && t.n == n && t.head == Head(puts)
            && t.At(slot) == if t.head - n < slot <= t.head then LastPut(puts, slot) else NAN32
  {
    if puts != [] {
      var init, last := puts[..|puts| - 1], puts[|puts| - 1];
      RingRefinesLog(n, init, slot);
      assert PutAll(n, puts) == PutAll(n, init).Put(last.0, last.1);
    }
  }

  /** A series after samples in any order. */
  function SampleAll(p: Platform, samples: seq<Sample>): Series {
    if samples == [] then NO_SERIES
    else
      var last := samples[|samples| - 1];
      Sampled(p, SampleAll(p, samples[..|samples| - 1]), last.at, last.v)
  }

  /** Above the fine ring's lower edge: the minute has not lost any of its fine slots. */
  predicate Whole(ser: Series, m: int) {
    FINE_PER_COARSE * m > ser.fine.head - FINE_SLOTS
  }

  /** The coarse ring holds the mean of the minute's fine slots. */
  predicate Agrees(p: Platform, ser: Series, m: int) {
    ser.coarse.At(m) == Average(p, Minute(ser.fine, m))
  }

  /** For every whole minute. */
  ghost predicate TiersAgree(p: Platform, ser: Series) {
    forall m :: Whole(ser, m) ==> Agrees(p, ser, m)
  }

  /** What holds for samples of any size: the mean where it is a number, a gap where nothing is held. */
  ghost predicate MinuteHolds(p: Platform, ser: Series, m: int) {
    var vals := Minute(ser.fine, m);
    (!IsNaN(Average(p, vals)) ==> Agrees(p, ser, m)) &&
    (Filter(vals) == [] ==> ser.coarse.At(m) == NAN32) &&
    (p.SingleMeans() && Filter(vals) != [] ==> !IsNaN(ser.coarse.At(m)))
  }

  ghost predicate TiersHold(p: Platform, ser: Series) {
    && ser.Valid() && ser.coarse.head <= FloorDiv(ser.fine.head, FINE_PER_COARSE)
    && forall m :: Whole(ser, m) ==> MinuteHolds(p, ser, m)
  }

  lemma OtherMinutesKept(fine: Track, slot: int, v: Number, m: int)
    requires fine.Valid() && fine.n == FINE_SLOTS && m != FloorDiv(slot, FINE_PER_COARSE)
    requires FINE_PER_COARSE * m > fine.Put(slot, v).head - FINE_SLOTS
    ensures Minute(fine.Put(slot, v), m) == Minute(fine, m)
  {
  }

  /** The minute of a sample, when the fine ring still takes it. */
  lemma SampledMinute(p: Platform, ser: Series, at: int, v: Number)
    requires TiersHold(p, ser) && Whole(Sampled(p, ser, at, v), CoarseSlot(at))
    ensures MinuteHolds(p, Sampled(p, ser, at, v), CoarseSlot(at))
  {
    hide Average, Filter, Minute;
    SlotsNest(at);
    var f, m, next := FineSlot(at), CoarseSlot(at), Sampled(p, ser, at, v);
    var i := f - FINE_PER_COARSE * m;
    var before, vals := Minute(ser.fine, m), Minute(next.fine, m);
    OneSlotChanges(ser.fine, f, v, m);
    FilterHas(vals, i);
    assert MinuteHolds(p, ser, m);
    if Filter(before) == [] && p.SingleMeans() {
      FilterEmpty(before);
      FilterOne(vals, i);
      AverageOfOne(p, vals, v);
    }
  }

  /** Of the slots of its minute a sample changes its own, while the ring takes the whole minute. */
  lemma OneSlotChanges(fine: Track, f: int, v: Number, m: int)
    requires fine.Valid() && fine.n == FINE_SLOTS
    requires m == FloorDiv(f, FINE_PER_COARSE) && fine.Put(f, v).head - FINE_SLOTS < FINE_PER_COARSE * m
    ensures var i, before, vals := f - FINE_PER_COARSE * m, Minute(fine, m), Minute(fine.Put(f, v), m);
            && |vals| == |before| == FINE_PER_COARSE && 0 <= i < FINE_PER_COARSE && vals[i] == v
            && forall j :: 0 <= j < FINE_PER_COARSE && j != i ==> vals[j] == before[j]
  {
  }

  lemma AverageOfOne(p: Platform, vals: seq<F32>, v: Number)
    requires p.SingleMeans() && Filter(vals) == [v]
    ensures !IsNaN(Average(p, vals))
  {
  }

  lemma SampledKeepsTiers(p: Platform, ser: Series, at: int, v: Number)
    requires TiersHold(p, ser)
    ensures TiersHold(p, Sampled(p, ser, at, v))
  {
    hide Average, Minute, Filter;
    SlotsNest(at);
    var f, next := FineSlot(at), Sampled(p, ser, at, v);
    forall m | Whole(next, m)
      ensures MinuteHolds(p, next, m)
    {
      if m == CoarseSlot(at) {
        SampledMinute(p, ser, at, v);
      } else {
        assert MinuteHolds(p, ser, m);
        OtherMinutesKept(ser.fine, f, v, m);
      }
    }
  }

  lemma {:induction false} AnyOrderTiersHold(p: Platform, samples: seq<Sample>)
    ensures TiersHold(p, SampleAll(p, samples))
  {
    if samples == [] {
      forall m
        ensures MinuteHolds(p, NO_SERIES, m)
      {
        FilterNone(Minute(NO_SERIES.fine, m));
      }
    } else {
      AnyOrderTiersHold(p, samples[..|samples| - 1]);
      SampledKeepsTiers(p, SampleAll(p, samples[..|samples| - 1]), samples[|samples| - 1].at, samples[|samples| - 1].v);
    }
  }

  /**
   For samples in any order, exactly when a whole minute has the mean of its fine slots: when that mean is a
   number, or nothing is held in it.
   */
  lemma AnyOrderAgreesExactly(p: Platform, samples: seq<Sample>, m: int)
    requires p.SingleMeans() && Whole(SampleAll(p, samples), m)
    ensures var ser := SampleAll(p, samples);
            var vals := Minute(ser.fine, m);
            Agrees(p, ser, m) <==> !IsNaN(Average(p, vals)) || Filter(vals) == []
  {
    hide SampleAll, Minute, Filter;
    AnyOrderTiersHold(p, samples);
    assert MinuteHolds(p, SampleAll(p, samples), m);
  }

  /** Without a word about the mean, it agrees wherever the mean is a number or nothing is held. */
  lemma AnyOrderAgreesWhereNumber(p: Platform, samples: seq<Sample>, m: int)
    requires Whole(SampleAll(p, samples), m)
    requires !IsNaN(Average(p, Minute(SampleAll(p, samples).fine, m))) || Filter(Minute(SampleAll(p, samples).fine, m)) == []
    ensures Agrees(p, SampleAll(p, samples), m)
  {
    hide SampleAll, Minute, Filter;
    AnyOrderTiersHold(p, samples);
    assert MinuteHolds(p, SampleAll(p, samples), m);
  }

  /** Everything a ring of finite samples holds is finite. */
  lemma {:induction false} HeldIsFinite(p: Platform, samples: seq<Sample>, s: int)
    requires forall i :: 0 <= i < |samples| ==> IsFinite(samples[i].v)
    ensures IsNaN(SampleAll(p, samples).fine.At(s)) || IsFinite(SampleAll(p, samples).fine.At(s))
  {
    hide Average, Minute;
    if samples != [] {
      HeldIsFinite(p, samples[..|samples| - 1], s);
    }
  }

  /** For finite samples in any order the tiers agree in every whole minute. */
  lemma AnyOrderTiersAgree(p: Platform, samples: seq<Sample>)
    requires p.FiniteMeans() && forall i :: 0 <= i < |samples| ==> IsFinite(samples[i].v)
    ensures TiersAgree(p, SampleAll(p, samples))
  {
    hide SampleAll, Average, Filter;
    var ser := SampleAll(p, samples);
    forall m | Whole(ser, m)
      ensures Agrees(p, ser, m)
    {
      var q := FINE_PER_COARSE * m;
      HeldIsFinite(p, samples, q);
      HeldIsFinite(p, samples, q + 1);
      HeldIsFinite(p, samples, q + 2);
      HeldIsFinite(p, samples, q + 3);
      FiniteAverage(p, Minute(ser.fine, m));
      AnyOrderAgreesWhereNumber(p, samples, m);
    }
  }

  /* Two finite doubles that do not fit a float32, one of each sign, in one minute. */

  const POSITIVE_INFINITY: Number := 0x7F80_0000
  const NEGATIVE_INFINITY: Number := 0xFF80_0000

  const FIRST := Sample(0, POSITIVE_INFINITY)
  const SECOND := Sample(FINE_MILLIS * NANOS, NEGATIVE_INFINITY)

  lemma FirstInfinity(p: Platform)
    requires !IsNaN(p.mean([POSITIVE_INFINITY]))
    ensures var ser := Sampled(p, NO_SERIES, FIRST.at, FIRST.v);
            ser.fine == Track(FINE_SLOTS, 0, map[0 := POSITIVE_INFINITY]) &&
            ser.coarse.At(0) == p.mean([POSITIVE_INFINITY])
  {
    assert FineSlot(0) == 0;
    var fine := NO_SERIES.fine.Put(0, POSITIVE_INFINITY);
    assert fine.held == map[0 := POSITIVE_INFINITY];
    var vals := Minute(fine, 0);
    assert vals == [POSITIVE_INFINITY, NAN32, NAN32, NAN32];
    FilterOne(vals, 0);
  }

  lemma SecondInfinity(p: Platform, first: Series)
    requires first.fine == Track(FINE_SLOTS, 0, map[0 := POSITIVE_INFINITY])
    requires IsNaN(p.mean([POSITIVE_INFINITY, NEGATIVE_INFINITY]))
    ensures var ser := Sampled(p, first, SECOND.at, SECOND.v);
            ser.coarse == first.coarse && IsNaN(Average(p, Minute(ser.fine, 0))) && Whole(ser, 0)
  {
    assert FineSlot(SECOND.at) == 1;
    var fine := first.fine.Put(1, NEGATIVE_INFINITY);
    assert fine.held == map[0 := POSITIVE_INFINITY, 1 := NEGATIVE_INFINITY];
    var vals := Minute(fine, 0);
    assert vals == [POSITIVE_INFINITY, NEGATIVE_INFINITY, NAN32, NAN32];
    assert vals[1..] == [NEGATIVE_INFINITY, NAN32, NAN32];
    FilterOne(vals[1..], 0);
    assert Filter(vals) == [POSITIVE_INFINITY] + [NEGATIVE_INFINITY] == [POSITIVE_INFINITY, NEGATIVE_INFINITY];
    hide Minute, Filter;
  }

  /** The mean of opposite infinities is no number: the minute keeps the infinity it had, and the tiers disagree. */
  lemma InfinitiesDisagree(p: Platform)
    requires !IsNaN(p.mean([POSITIVE_INFINITY])) && IsNaN(p.mean([POSITIVE_INFINITY, NEGATIVE_INFINITY]))
    ensures !TiersAgree(p, SampleAll(p, [FIRST, SECOND]))
  {
    hide Sampled, Average, Minute, Whole;
    FirstInfinity(p);
    var first := Sampled(p, NO_SERIES, FIRST.at, FIRST.v);
    SecondInfinity(p, first);
    assert [FIRST, SECOND][..1] == [FIRST] && [FIRST][..0] == [];
    assert SampleAll(p, [FIRST]) == first;
    assert !Agrees(p, SampleAll(p, [FIRST, SECOND]), 0);
  }
}
