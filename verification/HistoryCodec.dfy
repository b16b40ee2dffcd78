/** The file format step by step: a buffer that grows, and a decoder that consumes its input and keeps its first error. */
module HistoryCodec {
  import opened Octets
  import opened Wrappers
  import opened Ordering
  import opened HistoryRing
  import opened HistoryWire
  import opened HistoryFile

  /** The slots of a ring still inside its window as of now, gaps at either end left out. */
  method Trim(t: Track, now: int) returns (lo: int, hi: int)
    ensures (lo, hi) == Stretch(t, now)
  {
    lo := Max(t.head - t.n + 1, now - t.n + 1);
    hi := Min(t.head, now);
    ghost var bottom, top := lo, hi;
    while lo <= hi && IsNaN(t.At(lo))
      invariant FirstHeld(t, bottom, hi) == FirstHeld(t, lo, hi)
      decreases hi - lo
    {
      lo := lo + 1;
    }
    while hi >= lo && IsNaN(t.At(hi))
      invariant LastHeld(t, lo, top) == LastHeld(t, lo, hi)
      decreases hi - lo
    {
      hi := hi - 1;
    }
  }

  /** Writes the part of a ring that is still inside its window as of now, from the first value held to the last. */
  method AppendRing(b: Bytes, t: Track, now: int) returns (b': Bytes)
    ensures b' == b + TrackBytes(t, now)
  {
    var lo, hi := Trim(t, now);
    if lo > hi {
      b' := b + Varint(0);
      b' := b' + Uvarint(0);
      return;
    }
    b' := b + Varint(lo);
    b' := b' + Uvarint(hi - lo + 1);
    ghost var head := b';
    var slot := lo;
    while slot <= hi
      invariant lo <= slot <= hi + 1
      invariant b' + Words(t, slot, hi) == head + Words(t, lo, hi)
    {
      WordsStep(b', t, slot, hi);
      b' := b' + Word(t.At(slot));
      slot := slot + 1;
    }
    assert b' + [] == b';
  }

  lemma WordsStep(b: Bytes, t: Track, lo: int, hi: int)
    requires lo <= hi
    ensures b + Words(t, lo, hi) == b + Word(t.At(lo)) + Words(t, lo + 1, hi)
  {
  }

  lemma Flat3(b: Bytes, x: Bytes, y: Bytes, z: Bytes)
    ensures b + x + y + z == b + (x + (y + z))
  {
  }

  lemma Flat4(b: Bytes, w: Bytes, x: Bytes, y: Bytes, z: Bytes)
    ensures b + w + x + y + z == b + (w + (x + (y + z)))
  {
  }

  method AppendOneSeries(b: Bytes, name: Bytes, ser: Series, now: int) returns (b': Bytes)
    ensures b' == b + SeriesBytes(name, ser, now)
  {
    b' := b + String(name);
    b' := AppendRing(b', ser.fine, FineSlot(now));
    b' := AppendRing(b', ser.coarse, CoarseSlot(now));
    Flat3(b, String(name), TrackBytes(ser.fine, FineSlot(now)), TrackBytes(ser.coarse, CoarseSlot(now)));
  }

  method AppendSeries(b: Bytes, names: seq<Bytes>, series: map<Bytes, Series>, now: int) returns (b': Bytes)
    requires forall n :: n in names ==> n in series
    ensures b' == b + AllSeries(names, series, now)
  {
    hide SeriesBytes;
    b' := b;
    var i := 0;
    while i < |names|
      invariant 0 <= i <= |names|
      invariant b' + AllSeries(names[i..], series, now) == b + AllSeries(names, series, now)
    {
      SeriesNext(b', names[i..], series, now);
      assert names[i..][1..] == names[i + 1..];
      b' := AppendOneSeries(b', names[i], series[names[i]], now);
      i := i + 1;
    }
    assert b' + [] == b';
  }

  lemma SeriesNext(b: Bytes, names: seq<Bytes>, series: map<Bytes, Series>, now: int)
    requires names != [] && forall n :: n in names ==> n in series
    ensures b + AllSeries(names, series, now)
         == b + SeriesBytes(names[0], series[names[0]], now) + AllSeries(names[1..], series, now)
  {
  }

  method AppendSubject(b: Bytes, key: Bytes, sub: Subject, now: int) returns (b': Bytes)
    ensures b' == b + SubjectBytes(key, sub, now)
  {
    var names := Sort(ByteRank, sub.series.Keys);
    SortedUnique(ByteRank, names, SortedKeys(ByteRank, sub.series.Keys));
    NamesAreKeys(sub.series);
    b' := b + String(key);
    b' := b' + Varint(Millis(sub.seen));
    b' := b' + Uvarint(|names|);
    b' := AppendSeries(b', names, sub.series, now);
    Flat4(b, String(key), Varint(Millis(sub.seen)), Uvarint(|names|), AllSeries(names, sub.series, now));
  }

  lemma SubjectNext(b: Bytes, keys: seq<Bytes>, subjects: Subjects, now: int)
    requires keys != [] && forall k :: k in keys ==> k in subjects
    ensures b + AllSubjects(keys, subjects, now)
         == b + SubjectBytes(keys[0], subjects[keys[0]], now) + AllSubjects(keys[1..], subjects, now)
  {
  }

  /** The body of the file for everything held: subjects in key order, each with its series in name order. */
  method EncodeBody(subjects: Subjects, now: int) returns (body: Bytes)
    ensures body == Body(subjects, now)
  {
    hide SubjectBytes;
    var keys := Sort(ByteRank, subjects.Keys);
    SortedUnique(ByteRank, keys, SortedKeys(ByteRank, subjects.Keys));
    NamesAreKeys(subjects);
    body := Uvarint(|keys|);
    ghost var head := body;
    var i := 0;
    while i < |keys|
      invariant 0 <= i <= |keys|
      invariant body + AllSubjects(keys[i..], subjects, now) == head + AllSubjects(keys, subjects, now)
    {
      SubjectNext(body, keys[i..], subjects, now);
      assert keys[i..][1..] == keys[i + 1..];
      body := AppendSubject(body, keys[i], subjects[keys[i]], now);
      i := i + 1;
    }
    assert body + [] == body;
  }

  /** Reads the body of a file off its front. */
  class Decoder {
    var b: Bytes
    var err: bool

    /** After an error there is nothing left to read, so every later read fails as well. */
    ghost predicate Valid()
      reads this
    {
      err ==> b == []
    }

    constructor (body: Bytes)
      ensures Valid() && b == body && !err
    {
      b, err := body, false;
    }

    method Fail()
      modifies this
      ensures err && b == [] && Valid()
    {
      b, err := [], true;
    }

    method Uvarint() returns (v: nat)
      requires Valid()
      modifies this
      ensures Valid()
      ensures var got := ReadUvarint(old(b));
              if got.Some? then v == got.value.value && b == got.value.rest && !err && !old(err) else v == 0 && err
    {
      var got := ReadUvarint(b);
      if got.None? {
        Fail();
        return 0;
      }
      b := got.value.rest;
      return got.value.value;
    }

    method Varint() returns (v: int)
      requires Valid()
      modifies this
      ensures Valid()
      ensures var got := ReadVarint(old(b));
              if got.Some? then v == got.value.value && b == got.value.rest && !err && !old(err) else v == 0 && err
    {
      var got := ReadVarint(b);
      if got.None? {
        Fail();
        return 0;
      }
      b := got.value.rest;
      return got.value.value;
    }

    method String() returns (s: Bytes)
      requires Valid()
      modifies this
      ensures Valid()
      ensures var got := ReadString(old(b));
              if got.Some? then s == got.value.value && b == got.value.rest && !err && !old(err) else s == [] && err
    {
      var n := Uvarint();
      if n > MAX_KEY || n > |b| {
        Fail();
        return [];
      }
      s := b[..n];
      b := b[n..];
    }

    /** Reads one ring of n slots, keeping those still inside its window, and says whether any value was kept. */
    method ReadRing(n: nat, now: int) returns (t: Track, held: bool)
      requires Valid()
      modifies this
      ensures Valid()
      ensures var got := ReadTrack(old(b), n, now);
              if got.Some? then (t, held) == got.value.value && b == got.value.rest && !err && !old(err) else err
    {
      hide Track.Put, ReadWord, ReadWords, ReadVarint, ReadUvarint;
      t, held := EmptyTrack(n), false;
      var first := Varint();
      var count := Uvarint();
      if count > |b| / 4 {
        Fail();
        return;
      }
      ghost var vals := ReadWords(b[..4 * count]);
      ReadWordsAt(b, count);
      var i := 0;
      while i < count
        invariant 0 <= i <= count && t.n == n
        invariant Take(t, held, first + i, vals[i..], now) == Take(EmptyTrack(n), false, first, vals, now)
      {
        var v := ReadWord(b[4 * i..]);
        var slot := first + i;
        assert vals[i..][0] == v && vals[i..][1..] == vals[i + 1..];
        if !(slot < now - n + 1 || slot > now || IsNaN(v)) {
          t := t.Put(slot, v);
          held := true;
        }
        i := i + 1;
      }
      b := b[4 * count..];
    }

    /** One series; after an error what comes back is not looked at. */
    method ReadNextSeries(now: int) returns (name: Bytes, ser: Series, held: bool)
      requires Valid()
      modifies this
      ensures Valid()
      ensures var got := ReadOneSeries(old(b), now);
              if got.Some? then (name, ser, held) == got.value.value && b == got.value.rest && !err && !old(err) else err
    {
      name := String();
      var fine, fineHeld := ReadRing(FINE_SLOTS, FineSlot(now));
      var coarse, coarseHeld := ReadRing(COARSE_SLOTS, CoarseSlot(now));
      ser, held := Series(fine, coarse), fineHeld || coarseHeld;
    }

    method ReadAllSeries(count: nat, now: int) returns (series: map<Bytes, Series>)
      requires Valid()
      modifies this
      ensures Valid()
      ensures var got := ReadSeries(old(b), count, map[], now);
              if old(err) then err
              else if got.Some? then series == got.value.value && b == got.value.rest && !err else err
    {
      hide ReadOneSeries;
      series := map[];
      ghost var whole, failed := b, err;
      var left := count;
      while left > 0
        invariant 0 <= left <= count && Valid() && err == failed
        invariant !err ==> ReadSeries(b, left, series, now) == ReadSeries(whole, count, map[], now)
      {
        ghost var one := ReadOneSeries(b, now);
        SeriesStep(b, left, series, now);
        var name, ser, held := ReadNextSeries(now);
        if err {
          return;
        }
        assert one.Some? && one.value.value == (name, ser, held) && one.value.rest == b;
        if held {
          series := series[name := ser];
        }
        left := left - 1;
      }
    }

    method ReadNextSubject(limit: nat, now: int) returns (key: Bytes, sub: Subject)
      requires Valid()
      modifies this
      ensures Valid()
      ensures var got := ReadOneSubject(old(b), limit, now);
              if got.Some? && !old(err) then (key, sub) == got.value.value && b == got.value.rest && !err else err
    {
      key := String();
      var seen := Varint();
      var nseries := Uvarint();
      var series := ReadAllSeries(if nseries < limit then nseries else limit, now);
      sub := Subject(seen * NANOS, series);
    }
  }

  lemma SeriesStep(b: Bytes, count: nat, acc: map<Bytes, Series>, now: int)
    requires count > 0
    ensures ReadSeries(b, count, acc, now)
         == match ReadOneSeries(b, now)
            case None => None
            case Some(one) =>
              ReadSeries(one.rest, count - 1, if one.value.2 then acc[one.value.0 := one.value.1] else acc, now)
  {
  }

  lemma SubjectStep(b: Bytes, count: nat, acc: Subjects, limit: nat, now: int)
    requires count > 0
    ensures ReadSubjects(b, count, acc, limit, now)
         == match ReadOneSubject(b, limit, now)
            case None => None
            case Some(one) =>
              ReadSubjects(one.rest, count - 1,
                           if one.value.1.series == map[] then acc else acc[one.value.0 := one.value.1], limit, now)
  {
  }

  /** Reads the body of a file; None when it is cut short anywhere. */
  method DecodeBody(body: Bytes, now: int) returns (subjects: Option<Subjects>)
    ensures subjects == ReadBody(body, now)
  {
    hide ReadOneSubject;
    var d := new Decoder(body);
    var out: Subjects := map[];
    var count := d.Uvarint();
    var left := if count < |body| then count else |body|;
    ghost var rest, total, failed := d.b, left, d.err;
    while left > 0
      invariant 0 <= left <= total && d.Valid() && d.err == failed
      invariant !d.err ==> ReadSubjects(d.b, left, out, |body|, now) == ReadSubjects(rest, total, map[], |body|, now)
    {
      ghost var one := ReadOneSubject(d.b, |body|, now);
      SubjectStep(d.b, left, out, |body|, now);
      var key, sub := d.ReadNextSubject(|body|, now);
      if d.err {
        return None;
      }
      assert one.Some? && one.value.value == (key, sub) && one.value.rest == d.b;
      if sub.series != map[] {
        out := out[key := sub];
      }
      left := left - 1;
    }
    if d.err {
      return None;
    }
    return Some(out);
  }

  lemma {:induction false} ReadWordsAt(b: Bytes, count: nat)
    requires 4 * count <= |b|
    ensures forall i :: 0 <= i < count ==> ReadWords(b[..4 * count])[i] == ReadWord(b[4 * i..])
  {
    if count > 0 {
      ReadWordsAt(b[4..], count - 1);
      assert b[..4 * count][4..] == b[4..][..4 * (count - 1)];
      forall i | 0 <= i < count
        ensures ReadWords(b[..4 * count])[i] == ReadWord(b[4 * i..])
      {
        if i > 0 {
          assert b[4 * i..] == b[4..][4 * (i - 1)..];
        }
      }
    }
  }
}
