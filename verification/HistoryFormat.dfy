/**
 The bytes of the history file, said of the bytes alone: base 128 varints and zigzag as the Protocol Buffers
 encoding has them, words from the lowest byte up, and the order of everything in the file.
 */
module HistoryFormat {
  import opened Octets
  import opened Wrappers
  import opened Ordering
  import opened HistoryRing
  import opened HistoryWire
  import opened HistoryFile
  import opened HistoryLog
  import opened HistoryRestart
  import opened HistoryStore

  ghost function Power128(n: nat): (p: nat)
    ensures p > 0
  {
    if n == 0 then 1 else 128 * Power128(n - 1)
  }

  /** Dividing by 128 and then by q is dividing by 128 q. */
  lemma DivideTwice(x: nat, q: nat)
    requires q > 0
    ensures x / 128 / q == x / (128 * q)
  {
    var a := x / 128 / q;
    var r := x - 128 * q * a;
    assert x / 128 == q * a + x / 128 % q;
    assert x == 128 * (x / 128) + x % 128;
    assert r == 128 * (x / 128 % q) + x % 128;
    assert x / 128 % q <= q - 1;
    assert 0 <= r < 128 * q;
    Quotient(x, 128 * q, a, r);
  }

  lemma Quotient(x: nat, n: nat, a: nat, r: nat)
    requires n > 0 && x == n * a + r && r < n
    ensures x / n == a
  {
    var d := a - x / n;
    assert n * d == n * a - n * (x / n);
    if d >= 1 {
      MulAtLeast(n, d);
    } else if d <= -1 {
      assert n * -d == -(n * d);
      MulAtLeast(n, -d);
    }
  }

  /** Byte i holds the i-th seven bits, the lowest first, and its top bit says whether another follows. */
  lemma {:induction false} UvarintBytes(x: nat, i: nat)
    requires i < |Uvarint(x)|
    ensures Uvarint(x)[i] == x / Power128(i) % 128 + (if i + 1 < |Uvarint(x)| then 128 else 0)
  {
    if x >= 128 && i > 0 {
      UvarintBytes(x / 128, i - 1);
      DivideTwice(x, Power128(i - 1));
    }
  }

  /** No byte is spent on nothing: the last one is not zero unless the number is. */
  lemma {:induction false} UvarintIsShortest(x: nat)
    ensures x > 0 ==> Uvarint(x)[|Uvarint(x)| - 1] != 0
    ensures x == 0 ==> Uvarint(x) == [0]
  {
    if x >= 128 {
      UvarintIsShortest(x / 128);
    }
  }

  /** 0, -1, 1, -2, 2 and so on are 0, 1, 2, 3, 4 and so on. */
  lemma ZigzagCounts(n: nat)
    ensures Varint(n) == Uvarint(2 * n) && (n > 0 ==> Varint(0 - n) == Uvarint(2 * n - 1))
  {
  }

  lemma WordBytes(w: F32)
    ensures |Word(w)| == 4 && w == Word(w)[0] as int + 0x100 * (Word(w)[1] as int) + 0x1_0000 * (Word(w)[2] as int) + 0x100_0000 * (Word(w)[3] as int)
  {
    WordRoundTrip(w, []);
    assert Word(w) + [] == Word(w);
  }

  /** "HKMH", the version, and the packed body. */
  lemma FileBegins(p: Platform, subjects: Subjects, now: int)
    ensures File(p, subjects, now) == [0x48, 0x4B, 0x4D, 0x48, 1] + p.pack(Body(subjects, now))
  {
  }

  /** A file that begins otherwise, or whose body does not unpack, is not read. */
  lemma OtherFilesAreRefused(p: Platform, raw: Bytes, now: int)
    requires |raw| < 5 || raw[..5] != [0x48, 0x4B, 0x4D, 0x48, 1] || p.unpack(raw[5..]).None?
    ensures ReadFile(p, raw, now).None?
  {
    if |raw| >= 5 && raw[..4] == MAGIC && raw[4] == FILE_VERSION {
      assert raw[..5] == raw[..4] + [raw[4]];
    }
  }

  /* One sample. */

  lemma {:induction false} FoundFirst(t: Track, lo: int, hi: int, s: int)
    requires lo <= s <= hi && !IsNaN(t.At(s)) && forall k :: lo <= k < s ==> IsNaN(t.At(k))
    ensures FirstHeld(t, lo, hi) == s
    decreases hi - lo
  {
    if lo < s {
      FoundFirst(t, lo + 1, hi, s);
    }
  }

  /** A ring with one value is its slot, the number one and the value. */
  lemma OneValue(n: nat, s: int, v: Number)
    requires n > 0 && s >= 0
    ensures TrackBytes(EmptyTrack(n).Put(s, v), s) == Varint(s) + ([1] + Word(v))
  {
    var t := EmptyTrack(n).Put(s, v);
    assert t.head == s && t.held == map[s := v];
    FoundFirst(t, s - n + 1, s, s);
    assert Stretch(t, s) == (s, s);
    hide Word, Varint;
    assert Words(t, s, s) == Word(v) + Words(t, s + 1, s) == Word(v);
    assert Uvarint(1) == [1];
  }

  lemma OneKey<V>(key: Bytes, value: V)
    ensures SortedKeys(ByteRank, map[key := value].Keys) == [key]
  {
    assert Injective(ByteRank);
    assert Sorted(ByteRank, [key]) && Elements([key]) == {key};
    assert map[key := value].Keys == {key};
    SortedUnique(ByteRank, [key], SortedKeys(ByteRank, {key}));
  }

  /** One subject, its key, when it was heard from in milliseconds, one series, its name, the fine ring and then the coarse one. */
  function OneSampleBytes(p: Platform, key: Bytes, name: Bytes, t: int, v: Number): Bytes {
    Lay([1], Uvarint(|key|) + key, Varint(FloorDiv(t, 1_000_000)), [1], Uvarint(|name|) + name,
        Varint(FloorDiv(t, 15_000_000_000)) + ([1] + Word(v)),
        Varint(FloorDiv(t, 60_000_000_000)) + ([1] + Word(p.mean([v]))))
  }

  /** The body of the file of a single sample, byte for byte. */
  lemma OneSampleFile(p: Platform, key: Bytes, name: Bytes, t: int, v: Number)
    requires t >= 0 && !IsNaN(p.mean([v]))
    ensures Body(Record(p, map[], key, t, map[name := Finite(v)]), t) ==
            OneSampleBytes(p, key, name, t, v)
  {
    hide Body, Record, SubjectBytes, TrackBytes, Word, Varint, Uvarint, String, Millis, FineSlot, CoarseSlot, Lay;
    var sub := OneSampleHeld(p, key, name, t, v);
    var fine, coarse := EmptyTrack(FINE_SLOTS).Put(FineSlot(t), v), EmptyTrack(COARSE_SLOTS).Put(CoarseSlot(t), p.mean([v]));
    OneSubjectBody(key, sub, t);
    OneSeriesBytes(key, name, sub, Series(fine, coarse), t);
    OneValue(FINE_SLOTS, FineSlot(t), v);
    OneValue(COARSE_SLOTS, CoarseSlot(t), p.mean([v]));
    SlotsOf(t);
    StringIs(key);
    StringIs(name);
    Laid(Body(map[key := sub], t), SubjectBytes(key, sub, t), String(key), Varint(Millis(t)), String(name),
      TrackBytes(fine, FineSlot(t)), TrackBytes(coarse, CoarseSlot(t)));
    assert Body(Record(p, map[], key, t, map[name := Finite(v)]), t) ==
           OneSampleBytes(p, key, name, t, v);
  }

  /** One after the other. */
  function Lay(a: Bytes, b: Bytes, c: Bytes, d: Bytes, e: Bytes, f: Bytes, g: Bytes): Bytes {
    a + (b + (c + (d + (e + (f + g)))))
  }

  lemma Laid(whole: Bytes, rest: Bytes, b: Bytes, c: Bytes, e: Bytes, f: Bytes, g: Bytes)
    requires whole == [1] + rest && rest == b + (c + ([1] + (e + (f + g))))
    ensures whole == Lay([1], b, c, [1], e, f, g)
  {
  }

  lemma StringIs(s: Bytes)
    ensures String(s) == Uvarint(|s|) + s
  {
  }

  lemma OneSubjectBody(key: Bytes, sub: Subject, t: int)
    ensures Body(map[key := sub], t) == [1] + SubjectBytes(key, sub, t)
  {
    hide SubjectBytes;
    OneKey(key, sub);
    var subjects := map[key := sub];
    assert AllSubjects([key], subjects, t) == SubjectBytes(key, sub, t) + AllSubjects([key][1..], subjects, t) == SubjectBytes(key, sub, t);
    OneByte();
  }

  lemma OneSeriesBytes(key: Bytes, name: Bytes, sub: Subject, ser: Series, t: int)
    requires sub.seen == t && sub.series == map[name := ser]
    ensures SubjectBytes(key, sub, t) ==
            String(key) + (Varint(Millis(t)) +
            ([1] + (String(name) + (TrackBytes(ser.fine, FineSlot(t)) + TrackBytes(ser.coarse, CoarseSlot(t))))))
  {
    hide TrackBytes, String, Varint, Millis, FineSlot, CoarseSlot;
    OneKey(name, ser);
    assert AllSeries([name], sub.series, t) == SeriesBytes(name, ser, t) + AllSeries([name][1..], sub.series, t) == SeriesBytes(name, ser, t);
    OneByte();
  }

  lemma OneByte()
    ensures Uvarint(1) == [1]
  {
  }

  lemma SlotsOf(t: int)
    ensures Millis(t) == FloorDiv(t, 1_000_000)
    ensures FineSlot(t) == FloorDiv(t, 15_000_000_000) && CoarseSlot(t) == FloorDiv(t, 60_000_000_000)
  {
  }

  lemma OneSampleHeld(p: Platform, key: Bytes, name: Bytes, t: int, v: Number) returns (sub: Subject)
    requires t >= 0 && !IsNaN(p.mean([v]))
    ensures Record(p, map[], key, t, map[name := Finite(v)]) == map[key := sub] && sub.seen == t
    ensures sub.series == map[name := Series(EmptyTrack(FINE_SLOTS).Put(FineSlot(t), v),
                                             EmptyTrack(COARSE_SLOTS).Put(CoarseSlot(t), p.mean([v])))]
    ensures FineSlot(t) >= 0 && CoarseSlot(t) >= 0
  {
    hide Sampled;
    OneSampleSeries(p, t, v);
    var values := map[name := Finite(v)];
    sub := RecordInto(p, Subject(ZERO_TIME, map[]), t, values);
    assert name in values && values != map[];
    assert SeriesOf(Subject(ZERO_TIME, map[]), name) == NO_SERIES;
  }

  lemma OneSampleSeries(p: Platform, t: int, v: Number)
    requires t >= 0 && !IsNaN(p.mean([v]))
    ensures Sampled(p, NO_SERIES, t, v) == Series(EmptyTrack(FINE_SLOTS).Put(FineSlot(t), v),
                                                  EmptyTrack(COARSE_SLOTS).Put(CoarseSlot(t), p.mean([v])))
    ensures FineSlot(t) >= 0 && CoarseSlot(t) >= 0
  {
    SlotsNest(t);
    SlotsMonotone(0, t);
    SlotsStart();
    var fine := EmptyTrack(FINE_SLOTS).Put(FineSlot(t), v);
    var m := CoarseSlot(t);
    var vals := Minute(fine, m);
    var i := FineSlot(t) - FINE_PER_COARSE * m;
    assert vals[i] == v && forall j :: 0 <= j < |vals| && j != i ==> IsNaN(vals[j]);
    FilterOne(vals, i);
    hide Minute, Filter, FineSlot, CoarseSlot;
  }
}
