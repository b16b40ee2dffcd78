/**
 The history file, as a function from what the store holds to bytes and a reader from bytes to what a
 store may hold.  The methods that build and read it are in HistoryCodec.
 */
module HistoryFile {
  import opened Octets
  import opened Wrappers
  import opened Ordering
  import opened HistoryRing
  import opened HistoryWire

  /* Times are nanoseconds since 1970; the file and the slots count milliseconds. */

  const NANOS: nat := 1_000_000
  const FINE_MILLIS: nat := 15_000
  const COARSE_MILLIS: nat := 60_000

  function Millis(t: int): int { FloorDiv(t, NANOS) }

  function FineSlot(t: int): int { FloorDiv(Millis(t), FINE_MILLIS) }

  function CoarseSlot(t: int): int { FloorDiv(Millis(t), COARSE_MILLIS) }

  /** One quantity in its two tiers. */
  datatype Series = Series(fine: Track, coarse: Track) {
    ghost predicate Valid() {
      fine.Valid() && coarse.Valid() && fine.n == FINE_SLOTS && coarse.n == COARSE_SLOTS
    }
  }

  const NO_SERIES := Series(EmptyTrack(FINE_SLOTS), EmptyTrack(COARSE_SLOTS))

  /** One machine's or one app's quantities, and when anything was last recorded for it. */
  datatype Subject = Subject(seen: int, series: map<Bytes, Series>)

  type Subjects = map<Bytes, Subject>

  /**
   What this package takes from elsewhere: a compressor with its inverse, and the mean of the values a
   minute holds.
   */
  datatype Platform = Platform(pack: Bytes -> Bytes, unpack: Bytes -> Option<Bytes>, mean: seq<F32> -> F32) {
    ghost predicate Inverse() {
      forall b: Bytes :: unpack(pack(b)) == Some(b)
    }

    /** The mean of the finite values of a minute is a number. */
    ghost predicate FiniteMeans() {
      forall vals: seq<F32> :: 0 < |vals| <= FINE_PER_COARSE && AllFinite(vals) ==> !IsNaN(mean(vals))
    }

    /** The mean of one number is a number, an infinite one included. */
    ghost predicate SingleMeans() {
      forall v: F32 :: !IsNaN(v) ==> !IsNaN(mean([v]))
    }
  }

  predicate AllFinite(vals: seq<F32>) {
    forall i :: 0 <= i < |vals| ==> IsFinite(vals[i])
  }

  function ByteRank(b: Byte): int { b }

  /* Writing. */

  /** The first slot from lo on that holds a value, or hi + 1. */
  function FirstHeld(t: Track, lo: int, hi: int): (s: int)
    ensures lo <= s && (lo <= hi ==> s <= hi + 1)
    decreases hi - lo
  {
    if lo <= hi && IsNaN(t.At(lo)) then FirstHeld(t, lo + 1, hi) else lo
  }

  /** The last slot down from hi that holds a value, or lo - 1. */
  function LastHeld(t: Track, lo: int, hi: int): (s: int)
    ensures s <= hi && (lo <= hi ==> lo - 1 <= s)
    decreases hi - lo
  {
    if lo <= hi && IsNaN(t.At(hi)) then LastHeld(t, lo, hi - 1) else hi
  }

  lemma {:induction false} FirstHeldIsFirst(t: Track, lo: int, hi: int)
    ensures forall k :: lo <= k < FirstHeld(t, lo, hi) ==> IsNaN(t.At(k))
    decreases hi - lo
  {
    if lo <= hi && IsNaN(t.At(lo)) {
      FirstHeldIsFirst(t, lo + 1, hi);
    }
  }

  lemma {:induction false} LastHeldIsLast(t: Track, lo: int, hi: int)
    ensures forall k :: LastHeld(t, lo, hi) < k <= hi ==> IsNaN(t.At(k))
    decreases hi - lo
  {
    if lo <= hi && IsNaN(t.At(hi)) {
      LastHeldIsLast(t, lo, hi - 1);
    }
  }

  /** What a ring reads at consecutive slots. */
  function Values(t: Track, lo: int, hi: int): seq<F32>
    decreases hi - lo
  {
    if lo > hi then [] else [t.At(lo)] + Values(t, lo + 1, hi)
  }

  function Words(t: Track, lo: int, hi: int): (b: Bytes)
    ensures |b| == if lo > hi then 0 else 4 * (hi - lo + 1)
    decreases hi - lo
  {
    if lo > hi then [] else Word(t.At(lo)) + Words(t, lo + 1, hi)
  }

  function Max(a: int, b: int): int { if a > b then a else b }
  function Min(a: int, b: int): int { if a < b then a else b }

  /** The part of a ring still inside its window as of now, from the first value held to the last. */
  function Stretch(t: Track, now: int): (s: (int, int))
    ensures s.0 >= t.head - t.n + 1 && s.0 >= now - t.n + 1 && s.1 <= t.head && s.1 <= now
  {
    var lo := FirstHeld(t, Max(t.head - t.n + 1, now - t.n + 1), Min(t.head, now));
    (lo, LastHeld(t, lo, Min(t.head, now)))
  }

  /** A stretch of a ring, gaps included. */
  function StretchBytes(t: Track, lo: int, hi: int): (b: Bytes)
    ensures |b| >= 2
  {
    if lo > hi then Varint(0) + Uvarint(0) else Varint(lo) + (Uvarint(hi - lo + 1) + Words(t, lo, hi))
  }

  function TrackBytes(t: Track, now: int): (b: Bytes)
    ensures |b| >= 2
  {
    StretchBytes(t, Stretch(t, now).0, Stretch(t, now).1)
  }

  function SeriesBytes(name: Bytes, ser: Series, now: int): (b: Bytes)
    ensures |b| >= 5
  {
    String(name) + (TrackBytes(ser.fine, FineSlot(now)) + TrackBytes(ser.coarse, CoarseSlot(now)))
  }

  function AllSeries(names: seq<Bytes>, series: map<Bytes, Series>, now: int): (b: Bytes)
    requires forall n :: n in names ==> n in series
    ensures |b| >= |names|
  {
    if names == [] then [] else SeriesBytes(names[0], series[names[0]], now) + AllSeries(names[1..], series, now)
  }

  ghost function SubjectBytes(key: Bytes, sub: Subject, now: int): (b: Bytes)
    ensures |b| >= 3
  {
    NamesAreKeys(sub.series);
    var names := SortedKeys(ByteRank, sub.series.Keys);
    String(key) + (Varint(Millis(sub.seen)) + (Uvarint(|names|) + AllSeries(names, sub.series, now)))
  }

  ghost function AllSubjects(keys: seq<Bytes>, subjects: Subjects, now: int): (b: Bytes)
    requires forall k :: k in keys ==> k in subjects
    ensures |b| >= |keys|
  {
    if keys == [] then [] else SubjectBytes(keys[0], subjects[keys[0]], now) + AllSubjects(keys[1..], subjects, now)
  }

  lemma NamesAreKeys<V>(m: map<Bytes, V>)
    ensures forall n :: n in SortedKeys(ByteRank, m.Keys) <==> n in m
  {
    assert forall n :: n in SortedKeys(ByteRank, m.Keys) <==> n in Elements(SortedKeys(ByteRank, m.Keys));
  }

  ghost function Body(subjects: Subjects, now: int): Bytes {
    NamesAreKeys(subjects);
    var keys := SortedKeys(ByteRank, subjects.Keys);
    Uvarint(|keys|) + AllSubjects(keys, subjects, now)
  }

  const MAGIC: Bytes := [0x48, 0x4B, 0x4D, 0x48]
  const FILE_VERSION: Byte := 1

  ghost function File(p: Platform, subjects: Subjects, now: int): Bytes {
    MAGIC + [FILE_VERSION] + p.pack(Body(subjects, now))
  }

  /* Reading. */

  function ReadWords(b: Bytes): (v: seq<F32>)
    ensures |v| == |b| / 4
  {
    if |b| < 4 then [] else [ReadWord(b)] + ReadWords(b[4..])
  }

  /** The values of one ring put in from slot on, those outside the window or not a number left out. */
  function Take(t: Track, held: bool, slot: int, vals: seq<F32>, now: int): (r: (Track, bool))
    decreases |vals|
  {
    if vals == [] then (t, held)
    else if slot <= now - t.n || slot > now || IsNaN(vals[0]) then Take(t, held, slot + 1, vals[1..], now)
    else Take(t.Put(slot, vals[0]), true, slot + 1, vals[1..], now)
  }

  function ReadTrack(b: Bytes, n: nat, now: int): (r: Option<Item<(Track, bool)>>)
    ensures r.Some? ==> |r.value.rest| < |b|
  {
    match ReadVarint(b)
    case None => None
    case Some(first) =>
      match ReadUvarint(first.rest)
      case None => None
      case Some(count) =>
        if count.value > |count.rest| / 4 then None
        else Some(Item(Take(EmptyTrack(n), false, first.value, ReadWords(count.rest[..4 * count.value]), now),
                       count.rest[4 * count.value..]))
  }

  /** One series: its name, its rings, and whether either holds anything. */
  function ReadOneSeries(b: Bytes, now: int): (r: Option<Item<(Bytes, Series, bool)>>) {
    match ReadString(b)
    case None => None
    case Some(name) =>
      match ReadTrack(name.rest, FINE_SLOTS, FineSlot(now))
      case None => None
      case Some(fine) =>
        match ReadTrack(fine.rest, COARSE_SLOTS, CoarseSlot(now))
        case None => None
        case Some(coarse) =>
          Some(Item((name.value, Series(fine.value.0, coarse.value.0), fine.value.1 || coarse.value.1), coarse.rest))
  }

  function ReadSeries(b: Bytes, count: nat, acc: map<Bytes, Series>, now: int): (r: Option<Item<map<Bytes, Series>>>)
    decreases count
  {
    if count == 0 then Some(Item(acc, b))
    else
      match ReadOneSeries(b, now)
      case None => None
      case Some(one) =>
        ReadSeries(one.rest, count - 1, if one.value.2 then acc[one.value.0 := one.value.1] else acc, now)
  }

  /** One subject: its key, and what was read of it. */
  function ReadOneSubject(b: Bytes, limit: nat, now: int): (r: Option<Item<(Bytes, Subject)>>) {
    match ReadString(b)
    case None => None
    case Some(key) =>
      match ReadVarint(key.rest)
      case None => None
      case Some(seen) =>
        match ReadUvarint(seen.rest)
        case None => None
        case Some(nseries) =>
          match ReadSeries(nseries.rest, if nseries.value < limit then nseries.value else limit, map[], now)
          case None => None
          case Some(series) => Some(Item((key.value, Subject(seen.value * NANOS, series.value)), series.rest))
  }

  /** count subjects; one with nothing left in its windows is dropped.  No list is longer than limit. */
  function ReadSubjects(b: Bytes, count: nat, acc: Subjects, limit: nat, now: int): (r: Option<Subjects>)
    decreases count
  {
    if count == 0 then Some(acc)
    else
      match ReadOneSubject(b, limit, now)
      case None => None
      case Some(one) =>
        ReadSubjects(one.rest, count - 1,
                     if one.value.1.series == map[] then acc else acc[one.value.0 := one.value.1], limit, now)
  }

  function ReadBody(body: Bytes, now: int): Option<Subjects> {
    match ReadUvarint(body)
    case None => None
    case Some(count) =>
      ReadSubjects(count.rest, if count.value < |body| then count.value else |body|, map[], |body|, now)
  }

  /** A whole file; what follows the last subject is not looked at. */
  function ReadFile(p: Platform, raw: Bytes, now: int): (r: Option<Subjects>) {
    if |raw| < 5 || raw[..4] != MAGIC || raw[4] != FILE_VERSION then None
    else
      match p.unpack(raw[5..])
      case None => None
      case Some(body) => ReadBody(body, now)
  }
}
