/** Reading the history file back gives what was written, less what has aged out in between. */
module HistoryRoundTrip {
  import opened Octets
  import opened Wrappers
  import opened Ordering
  import opened HistoryRing
  import opened HistoryWire
  import opened HistoryFile

  function Cut(held: map<int, F32>, lo: int, hi: int): map<int, F32> {
    map s | s in held && lo <= s <= hi :: held[s]
  }

  lemma {:induction false} WordsRoundTrip(t: Track, lo: int, hi: int)
    ensures ReadWords(Words(t, lo, hi)) == Values(t, lo, hi)
    decreases hi - lo
  {
    if lo <= hi {
      WordRoundTrip(t.At(lo), Words(t, lo + 1, hi));
      WordsRoundTrip(t, lo + 1, hi);
    }
  }

  /** What a read adds to a ring that so far holds slots below lo. */
  ghost function Gained(t: Track, lo: int, hi: int, later: int): map<int, F32> {
    Cut(t.held, Max(lo, later - t.n + 1), Min(hi, later))
  }

  lemma GainedStep(t: Track, have: map<int, F32>, lo: int, hi: int, later: int)
    requires t.Valid() && lo <= hi
    ensures var v := t.At(lo);
            if lo <= later - t.n || lo > later || IsNaN(v)
            then Gained(t, lo, hi, later) == Gained(t, lo + 1, hi, later)
            else have + Gained(t, lo, hi, later) == have[lo := v] + Gained(t, lo + 1, hi, later)
  {
  }

  /** A ring being read: every value of t from its window met so far, and nothing else. */
  ghost predicate Filled(t: Track, r: (Track, bool), have: map<int, F32>, later: int) {
    r.0.Valid() && r.0.n == t.n && 0 <= r.0.head <= later && r.0.held == have && r.1 == (have != map[])
  }

  lemma GainedNone(t: Track, have: map<int, F32>, lo: int, hi: int, later: int)
    requires lo > hi
    ensures have + Gained(t, lo, hi, later) == have
  {
  }

  lemma PutFills(t: Track, into: Track, lo: int, later: int)
    requires t.Valid() && Filled(t, (into, into.held != map[]), into.held, later)
    requires forall s :: s in into.held ==> later - t.n < s < lo
    requires later - t.n < lo <= later && !IsNaN(t.At(lo))
    ensures Filled(t, (into.Put(lo, t.At(lo)), true), into.held[lo := t.At(lo)], later)
  {
    var next := into.Put(lo, t.At(lo));
    assert lo in next.held;
    assert next.held == into.held[lo := t.At(lo)];
  }

  lemma {:induction false} TakeValues(t: Track, into: Track, held: bool, lo: int, hi: int, later: int)
    requires t.Valid() && Filled(t, (into, held), into.held, later)
    requires forall s :: s in into.held ==> later - t.n < s < lo
    ensures Filled(t, Take(into, held, lo, Values(t, lo, hi), later), into.held + Gained(t, lo, hi, later), later)
    decreases hi - lo
  {
    hide Track.Put, Gained;
    if lo > hi {
      GainedNone(t, into.held, lo, hi, later);
    } else {
      var v := t.At(lo);
      GainedStep(t, into.held, lo, hi, later);
      if lo <= later - t.n || lo > later || IsNaN(v) {
        TakeValues(t, into, held, lo + 1, hi, later);
      } else {
        PutFills(t, into, lo, later);
        TakeValues(t, into.Put(lo, v), true, lo + 1, hi, later);
      }
      assert Values(t, lo, hi)[1..] == Values(t, lo + 1, hi);
    }
  }

  ghost predicate SlotFits(s: int) {
    -INT64 / 2 <= s < INT64 / 2
  }

  lemma Assoc(a: Bytes, b: Bytes, c: Bytes, d: Bytes)
    ensures a + (b + c) + d == a + (b + (c + d))
  {
  }

  /** ReadTrack from its three parts. */
  lemma TrackParts(b: Bytes, n: nat, later: int, first: Item<int>, count: Item<nat>, words: Bytes, tail: Bytes)
    requires ReadVarint(b) == Some(first) && ReadUvarint(first.rest) == Some(count)
    requires count.rest == words + tail && |words| == 4 * count.value
    ensures ReadTrack(b, n, later) == Some(Item(Take(EmptyTrack(n), false, first.value, ReadWords(words), later), tail))
  {
    assert count.rest[..|words|] == words && count.rest[|words|..] == tail;
  }

  /** The bytes of a stretch of a ring are read as its values, and nothing after them is touched. */
  lemma StretchRoundTrip(t: Track, lo: int, hi: int, later: int, tail: Bytes)
    requires lo <= hi && -INT64 <= lo < INT64 && hi - lo + 1 < UINT64
    ensures ReadTrack(Varint(lo) + (Uvarint(hi - lo + 1) + Words(t, lo, hi)) + tail, t.n, later)
         == Some(Item(Take(EmptyTrack(t.n), false, lo, Values(t, lo, hi), later), tail))
  {
    var words := Words(t, lo, hi);
    var afterFirst := Uvarint(hi - lo + 1) + (words + tail);
    Assoc(Varint(lo), Uvarint(hi - lo + 1), words, tail);
    VarintRoundTrip(lo, afterFirst);
    UvarintRoundTrip(hi - lo + 1, words + tail);
    TrackParts(Varint(lo) + afterFirst, t.n, later, Item(lo, afterFirst), Item(hi - lo + 1, words + tail), words, tail);
    WordsRoundTrip(t, lo, hi);
  }

  lemma NothingRoundTrip(n: nat, later: int, tail: Bytes)
    ensures ReadTrack(Varint(0) + Uvarint(0) + tail, n, later) == Some(Item((EmptyTrack(n), false), tail))
  {
    Assoc(Varint(0), Uvarint(0), [], tail);
    assert Uvarint(0) + [] == Uvarint(0) && [] + tail == tail;
    VarintRoundTrip(0, Uvarint(0) + tail);
    UvarintRoundTrip(0, tail);
    TrackParts(Varint(0) + (Uvarint(0) + tail), n, later, Item(0, Uvarint(0) + tail), Item(0, tail), [], tail);
  }

  /** The stretch that is written holds every value of the window. */
  lemma StretchHoldsAll(t: Track, now: int, later: int)
    requires t.Valid() && now <= later
    ensures Gained(t, Stretch(t, now).0, Stretch(t, now).1, later) == Cut(t.held, later - t.n + 1, now)
  {
    var bottom, top := Max(t.head - t.n + 1, now - t.n + 1), Min(t.head, now);
    var (lo, hi) := Stretch(t, now);
    FirstHeldIsFirst(t, bottom, top);
    LastHeldIsLast(t, lo, top);
    forall s | s in t.held && later - t.n < s <= now
      ensures lo <= s <= hi
    {
      assert t.At(s) == t.held[s];
    }
  }

  /** What a ring is read back as: the values of t that were in its window when it was written (at slot
      `now`) and still are when it is read (at slot `later`). */
  ghost predicate Reloaded(t: Track, r: (Track, bool), now: int, later: int) {
    Filled(t, r, Cut(t.held, later - t.n + 1, now), later)
  }

  /** What a ring written at slot `now` is read back as at slot `later`, and whether it holds anything. */
  function Load(t: Track, now: int, later: int): (Track, bool) {
    var (lo, hi) := Stretch(t, now);
    if lo > hi then (EmptyTrack(t.n), false)
    else Take(EmptyTrack(t.n), false, lo, Values(t, lo, hi), later)
  }

  lemma NothingGained(t: Track, lo: int, hi: int, later: int)
    requires lo > hi && t.n > 0 && 0 <= later
    ensures Filled(t, (EmptyTrack(t.n), false), Gained(t, lo, hi, later), later)
  {
    assert Gained(t, lo, hi, later) == map[];
  }

  /** Exactly the values that are in the window both times. */
  lemma LoadKeepsWindow(t: Track, now: int, later: int)
    requires t.Valid() && now <= later && 0 <= later
    ensures Reloaded(t, Load(t, now, later), now, later)
  {
    var (lo, hi) := Stretch(t, now);
    StretchHoldsAll(t, now, later);
    if lo > hi {
      NothingGained(t, lo, hi, later);
    } else {
      TakeValues(t, EmptyTrack(t.n), false, lo, hi, later);
      assert map[] + Gained(t, lo, hi, later) == Gained(t, lo, hi, later);
    }
  }

  /** One ring, written at slot `now` and read at slot `later`, takes exactly its own bytes. */
  lemma TrackRoundTrip(t: Track, now: int, later: int, tail: Bytes)
    requires SlotFits(t.head) && SlotFits(now) && t.n < INT64 / 4
    ensures ReadTrack(TrackBytes(t, now) + tail, t.n, later) == Some(Item(Load(t, now, later), tail))
  {
    var (lo, hi) := Stretch(t, now);
    if lo > hi {
      NothingRoundTrip(t.n, later, tail);
    } else {
      StretchRoundTrip(t, lo, hi, later, tail);
    }
  }

  /* Series. */

  function LoadSeries(ser: Series, now: int, later: int): (Series, bool) {
    var fine := Load(ser.fine, FineSlot(now), FineSlot(later));
    var coarse := Load(ser.coarse, CoarseSlot(now), CoarseSlot(later));
    (Series(fine.0, coarse.0), fine.1 || coarse.1)
  }

  /** The machine integers of the source: what a slot and a length must fit. */
  ghost predicate SeriesFits(ser: Series) {
    ser.Valid() && SlotFits(ser.fine.head) && SlotFits(ser.coarse.head)
  }

  ghost predicate TimeFits(t: int) {
    SlotFits(FineSlot(t)) && SlotFits(CoarseSlot(t)) && -INT64 <= Millis(t) < INT64
  }

  lemma SeriesRoundTrip(name: Bytes, ser: Series, count: nat, acc: map<Bytes, Series>, now: int, later: int, tail: Bytes)
    requires count > 0 && SeriesFits(ser) && TimeFits(now) && |name| < UINT64
    ensures ReadSeries(SeriesBytes(name, ser, now) + tail, count, acc, later)
         == if |name| > MAX_KEY then None
            else var (got, held) := LoadSeries(ser, now, later);
                 ReadSeries(tail, count - 1, if held then acc[name := got] else acc, later)
  {
    var fine, coarse := TrackBytes(ser.fine, FineSlot(now)), TrackBytes(ser.coarse, CoarseSlot(now));
    Assoc(String(name), fine, coarse, tail);
    StringRoundTrip(name, fine + (coarse + tail));
    TrackRoundTrip(ser.fine, FineSlot(now), FineSlot(later), coarse + tail);
    TrackRoundTrip(ser.coarse, CoarseSlot(now), CoarseSlot(later), tail);
  }

  /** Of what was loaded, the part that still holds something. */
  function Keep(loaded: map<Bytes, (Series, bool)>, names: seq<Bytes>): map<Bytes, Series> {
    map n | n in names && n in loaded && loaded[n].1 :: loaded[n].0
  }

  function LoadAllSeries(series: map<Bytes, Series>, now: int, later: int): map<Bytes, (Series, bool)> {
    map n | n in series :: LoadSeries(series[n], now, later)
  }

  lemma KeepStep(loaded: map<Bytes, (Series, bool)>, names: seq<Bytes>, acc: map<Bytes, Series>)
    requires names != [] && names[0] in loaded
    ensures acc + Keep(loaded, names)
         == (if loaded[names[0]].1 then acc[names[0] := loaded[names[0]].0] else acc) + Keep(loaded, names[1..])
  {
    assert forall n :: n in names <==> n == names[0] || n in names[1..];
  }

  ghost predicate AllFit(series: map<Bytes, Series>) {
    forall n :: n in series ==> |n| < UINT64 && SeriesFits(series[n])
  }

  predicate AllShort(names: seq<Bytes>) {
    forall n :: n in names ==> |n| <= MAX_KEY
  }

  lemma AllSeriesStep(names: seq<Bytes>, series: map<Bytes, Series>, loaded: map<Bytes, (Series, bool)>,
                      acc: map<Bytes, Series>, now: int, later: int, tail: Bytes)
    requires names != [] && (forall n :: n in names ==> n in series) && AllFit(series) && TimeFits(now)
    requires loaded == LoadAllSeries(series, now, later)
    ensures ReadSeries(AllSeries(names, series, now) + tail, |names|, acc, later)
         == if |names[0]| > MAX_KEY then None
            else ReadSeries(AllSeries(names[1..], series, now) + tail, |names| - 1,
                            if loaded[names[0]].1 then acc[names[0] := loaded[names[0]].0] else acc, later)
  {
    hide ReadOneSeries, SeriesBytes;
    var name, rest := names[0], AllSeries(names[1..], series, now);
    assert AllSeries(names, series, now) + tail == SeriesBytes(name, series[name], now) + (rest + tail);
    SeriesRoundTrip(name, series[name], |names|, acc, now, later, rest + tail);
  }

  lemma {:induction false} AllSeriesRoundTrip(names: seq<Bytes>, series: map<Bytes, Series>, loaded: map<Bytes, (Series, bool)>,
                                              acc: map<Bytes, Series>, now: int, later: int, tail: Bytes)
    requires (forall n :: n in names ==> n in series) && AllFit(series) && TimeFits(now)
    requires loaded == LoadAllSeries(series, now, later)
    ensures ReadSeries(AllSeries(names, series, now) + tail, |names|, acc, later)
         == if AllShort(names) then Some(Item(acc + Keep(loaded, names), tail)) else None
  {
    hide ReadOneSeries, SeriesBytes, LoadSeries, SeriesFits;
    if names == [] {
      assert [] + tail == tail;
      assert acc + Keep(loaded, names) == acc;
    } else {
      AllSeriesStep(names, series, loaded, acc, now, later, tail);
      AllSeriesRoundTrip(names[1..], series, loaded,
                         if loaded[names[0]].1 then acc[names[0] := loaded[names[0]].0] else acc, now, later, tail);
      assert forall n :: n in names <==> n == names[0] || n in names[1..];
      KeepStep(loaded, names, acc);
    }
  }

  /* Subjects. */

  /** A subject read back: to the millisecond, with the series that still hold something. */
  function LoadSubject(sub: Subject, now: int, later: int): Subject {
    var loaded := LoadAllSeries(sub.series, now, later);
    Subject(Millis(sub.seen) * NANOS, map n | n in loaded && loaded[n].1 :: loaded[n].0)
  }

  ghost predicate SubjectFits(key: Bytes, sub: Subject) {
    |key| < UINT64 && |sub.series| < UINT64 && -INT64 <= Millis(sub.seen) < INT64 && AllFit(sub.series)
  }

  ghost predicate SubjectsFit(subjects: Subjects) {
    |subjects| < UINT64 && forall k :: k in subjects ==> SubjectFits(k, subjects[k])
  }

  /** The strings the reader is willing to believe. */
  predicate KeysShort(key: Bytes, sub: Subject) {
    |key| <= MAX_KEY && forall n :: n in sub.series ==> |n| <= MAX_KEY
  }

  /** ReadSubjects from the parts of its first subject. */
  lemma SubjectParts(b: Bytes, count: nat, acc: Subjects, limit: nat, later: int,
                     key: Item<Bytes>, seen: Item<int>, n: Item<nat>, series: Option<Item<map<Bytes, Series>>>)
    requires count > 0 && ReadString(b) == Some(key) && ReadVarint(key.rest) == Some(seen)
    requires ReadUvarint(seen.rest) == Some(n) && n.value <= limit
    requires ReadSeries(n.rest, n.value, map[], later) == series
    ensures ReadSubjects(b, count, acc, limit, later)
         == if series.None? then None
            else ReadSubjects(series.value.rest, count - 1,
                              if series.value.value == map[] then acc
                              else acc[key.value := Subject(seen.value * NANOS, series.value.value)], limit, later)
  {
    hide ReadSeries, ReadUvarint, ReadVarint, ReadString;
  }

  lemma SubjectConcat(a: Bytes, b: Bytes, c: Bytes, d: Bytes, tail: Bytes)
    ensures a + (b + (c + d)) + tail == a + (b + (c + (d + tail)))
  {
  }

  lemma KeepAll(loaded: map<Bytes, (Series, bool)>, names: seq<Bytes>)
    requires forall n :: n in names <==> n in loaded
    ensures map[] + Keep(loaded, names) == map n | n in loaded && loaded[n].1 :: loaded[n].0
  {
  }

  lemma SubjectSeries(key: Bytes, sub: Subject, names: seq<Bytes>, now: int, later: int, tail: Bytes)
    requires (forall n :: n in names <==> n in sub.series) && AllFit(sub.series) && TimeFits(now) && |key| <= MAX_KEY
    ensures ReadSeries(AllSeries(names, sub.series, now) + tail, |names|, map[], later)
         == if KeysShort(key, sub) then Some(Item(LoadSubject(sub, now, later).series, tail)) else None
  {
    var loaded := LoadAllSeries(sub.series, now, later);
    AllSeriesRoundTrip(names, sub.series, loaded, map[], now, later, tail);
    KeepAll(loaded, names);
  }

  lemma SubjectRoundTrip(key: Bytes, sub: Subject, count: nat, acc: Subjects, limit: nat, now: int, later: int, tail: Bytes)
    requires count > 0 && SubjectFits(key, sub) && TimeFits(now) && limit >= |sub.series|
    ensures ReadSubjects(SubjectBytes(key, sub, now) + tail, count, acc, limit, later)
         == if !KeysShort(key, sub) then None
            else var got := LoadSubject(sub, now, later);
                 ReadSubjects(tail, count - 1, if got.series == map[] then acc else acc[key := got], limit, later)
  {
    NamesAreKeys(sub.series);
    var names := SortedKeys(ByteRank, sub.series.Keys);
    SortedLength(names, sub.series.Keys);
    var bytes := AllSeries(names, sub.series, now);
    var afterCount := bytes + tail;
    var afterSeen := Uvarint(|names|) + afterCount;
    var afterKey := Varint(Millis(sub.seen)) + afterSeen;
    SubjectConcat(String(key), Varint(Millis(sub.seen)), Uvarint(|names|), bytes, tail);
    StringRoundTrip(key, afterKey);
    if |key| <= MAX_KEY {
      VarintRoundTrip(Millis(sub.seen), afterSeen);
      UvarintRoundTrip(|names|, afterCount);
      SubjectSeries(key, sub, names, now, later, tail);
      SubjectParts(String(key) + afterKey, count, acc, limit, later, Item(key, afterKey),
                   Item(Millis(sub.seen), afterSeen), Item(|names|, afterCount),
                   ReadSeries(afterCount, |names|, map[], later));
    }
  }

  lemma {:induction false} SortedLength(keys: seq<Bytes>, s: set<Bytes>)
    requires Sorted(ByteRank, keys) && Elements(keys) == s
    ensures |keys| == |s|
  {
    if keys == [] {
      assert s == {};
    } else {
      assert keys[0] in Elements(keys);
      TailElements(ByteRank, keys);
      SortedLength(keys[1..], s - {keys[0]});
    }
  }

  /* The file. */

  /** Of the subjects that were loaded, the ones that still hold something. */
  function KeepSubjects(loaded: Subjects, keys: seq<Bytes>): Subjects {
    map k | k in keys && k in loaded && loaded[k].series != map[] :: loaded[k]
  }

  function LoadAll(subjects: Subjects, now: int, later: int): Subjects {
    map k | k in subjects :: LoadSubject(subjects[k], now, later)
  }

  predicate AllKeysShort(keys: seq<Bytes>, subjects: Subjects) {
    forall k :: k in keys && k in subjects ==> KeysShort(k, subjects[k])
  }

  lemma KeepSubjectsStep(loaded: Subjects, keys: seq<Bytes>, acc: Subjects)
    requires keys != [] && keys[0] in loaded
    ensures acc + KeepSubjects(loaded, keys)
         == (if loaded[keys[0]].series == map[] then acc else acc[keys[0] := loaded[keys[0]]])
            + KeepSubjects(loaded, keys[1..])
  {
    assert forall k :: k in keys <==> k == keys[0] || k in keys[1..];
  }

  lemma AllSubjectsStep(keys: seq<Bytes>, subjects: Subjects, loaded: Subjects, acc: Subjects,
                        limit: nat, now: int, later: int)
    requires keys != [] && (forall k :: k in keys ==> k in subjects) && SubjectsFit(subjects) && TimeFits(now)
    requires loaded == LoadAll(subjects, now, later) && limit >= |subjects[keys[0]].series|
    ensures ReadSubjects(AllSubjects(keys, subjects, now), |keys|, acc, limit, later)
         == if !KeysShort(keys[0], subjects[keys[0]]) then None
            else ReadSubjects(AllSubjects(keys[1..], subjects, now), |keys| - 1,
                              if loaded[keys[0]].series == map[] then acc else acc[keys[0] := loaded[keys[0]]],
                              limit, later)
  {
    hide ReadOneSubject, SubjectBytes, LoadSubject, KeysShort;
    SubjectRoundTrip(keys[0], subjects[keys[0]], |keys|, acc, limit, now, later, AllSubjects(keys[1..], subjects, now));
  }

  lemma {:induction false} AllSubjectsRoundTrip(keys: seq<Bytes>, subjects: Subjects, loaded: Subjects, acc: Subjects,
                                                limit: nat, now: int, later: int)
    requires (forall k :: k in keys ==> k in subjects) && SubjectsFit(subjects) && TimeFits(now)
    requires loaded == LoadAll(subjects, now, later)
    requires forall k :: k in keys ==> |subjects[k].series| <= limit
    ensures ReadSubjects(AllSubjects(keys, subjects, now), |keys|, acc, limit, later)
         == if AllKeysShort(keys, subjects) then Some(acc + KeepSubjects(loaded, keys)) else None
  {
    hide ReadOneSubject, SubjectBytes, LoadSubject, KeysShort, SubjectFits;
    if keys == [] {
      assert acc + KeepSubjects(loaded, keys) == acc;
    } else {
      AllSubjectsStep(keys, subjects, loaded, acc, limit, now, later);
      AllSubjectsRoundTrip(keys[1..], subjects, loaded,
                           if loaded[keys[0]].series == map[] then acc else acc[keys[0] := loaded[keys[0]]], limit, now, later);
      assert forall k :: k in keys <==> k == keys[0] || k in keys[1..];
      KeepSubjectsStep(loaded, keys, acc);
    }
  }

  /** A subject's bytes are never fewer than its series, so the reader's caps cut nothing short. */
  lemma SubjectBytesLong(key: Bytes, sub: Subject, now: int)
    requires AllFit(sub.series)
    ensures |SubjectBytes(key, sub, now)| >= |sub.series|
  {
    NamesAreKeys(sub.series);
    var names := SortedKeys(ByteRank, sub.series.Keys);
    SortedLength(names, sub.series.Keys);
  }

  lemma {:induction false} AllSubjectsLong(keys: seq<Bytes>, subjects: Subjects, now: int)
    requires (forall k :: k in keys ==> k in subjects) && SubjectsFit(subjects)
    ensures forall k :: k in keys ==> |subjects[k].series| <= |AllSubjects(keys, subjects, now)|
  {
    if keys != [] {
      SubjectBytesLong(keys[0], subjects[keys[0]], now);
      AllSubjectsLong(keys[1..], subjects, now);
      assert forall k :: k in keys <==> k == keys[0] || k in keys[1..];
    }
  }

  /** What a file written at `now` holds when it is read at `later`. */
  function Loaded(subjects: Subjects, now: int, later: int): Subjects {
    var loaded := LoadAll(subjects, now, later);
    map k | k in loaded && loaded[k].series != map[] :: loaded[k]
  }

  lemma KeepAllSubjects(loaded: Subjects, keys: seq<Bytes>)
    requires forall k :: k in keys <==> k in loaded
    ensures map[] + KeepSubjects(loaded, keys) == map k | k in loaded && loaded[k].series != map[] :: loaded[k]
  {
  }

  ghost predicate Readable(subjects: Subjects) {
    forall k :: k in subjects ==> KeysShort(k, subjects[k])
  }

  lemma SubjectsRoundTrip(keys: seq<Bytes>, subjects: Subjects, limit: nat, now: int, later: int)
    requires (forall k :: k in keys <==> k in subjects) && SubjectsFit(subjects) && TimeFits(now)
    requires limit >= |AllSubjects(keys, subjects, now)|
    ensures ReadSubjects(AllSubjects(keys, subjects, now), |keys|, map[], limit, later)
         == if Readable(subjects) then Some(Loaded(subjects, now, later)) else None
  {
    AllSubjectsLong(keys, subjects, now);
    var loaded := LoadAll(subjects, now, later);
    AllSubjectsRoundTrip(keys, subjects, loaded, map[], limit, now, later);
    KeepAllSubjects(loaded, keys);
  }

  /**
   The file comes back, less what aged out, exactly when every key and every series name is one the
   reader believes; one longer name loses the whole history.
   */
  lemma FileRoundTrip(p: Platform, subjects: Subjects, now: int, later: int)
    requires p.Inverse() && SubjectsFit(subjects) && TimeFits(now)
    ensures ReadFile(p, File(p, subjects, now), later)
         == if Readable(subjects) then Some(Loaded(subjects, now, later)) else None
  {
    hide ReadSubjects, AllSubjects, Readable, Loaded, Uvarint;
    NamesAreKeys(subjects);
    var keys := SortedKeys(ByteRank, subjects.Keys);
    SortedLength(keys, subjects.Keys);
    var bytes := AllSubjects(keys, subjects, now);
    assert File(p, subjects, now)[5..] == p.pack(Body(subjects, now));
    UvarintRoundTrip(|keys|, bytes);
    SubjectsRoundTrip(keys, subjects, |Uvarint(|keys|) + bytes|, now, later);
  }
}
