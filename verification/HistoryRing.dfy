/**
 The values and the rings of the metrics history.

 A sample is kept as the 32 bits of a float32.  Nothing here computes with them: the only question
 the history asks of a value is whether it is a number at all, because NaN is how a gap is stored.
 */
module HistoryRing {

  // The bits of an IEEE 754 float32.
  type F32 = w: int | 0 <= w < 0x1_0000_0000

  // The quiet NaN the rings are filled with.
  const NAN32: F32 := 0x7FC0_0000

  // All exponent bits set and a mantissa that is not zero, with either sign.
  predicate IsNaN(w: F32) {
    0x7F80_0000 < w < 0x8000_0000 || 0xFF80_0000 < w
  }

  // Not all exponent bits set: neither an infinity nor NaN.
  predicate IsFinite(w: F32) {
    w % 0x8000_0000 < 0x7F80_0000
  }

  /* The length of the two tiers, and how they relate. */
  const FINE_SLOTS: nat := 240
  const COARSE_SLOTS: nat := 1440
  const FINE_PER_COARSE: nat := 4

  /** Division that truncates towards zero, as the source language's `/` does. */
  function Quot(a: int, b: int): int
    requires b > 0
  {
    if a >= 0 then a / b else -(-a / b)
  }

  /** The remainder that goes with Quot: it has the sign of the dividend. */
  function Rem(a: int, b: int): int
    requires b > 0
  {
    a - b * Quot(a, b)
  }

  /** Division rounding towards minus infinity, from the truncating one. */
  function FloorDiv(a: int, b: int): (q: int)
    requires b > 0
    ensures b * q <= a < b * (q + 1)
  {
    var q := Quot(a, b);
    if Rem(a, b) != 0 && a < 0 then q - 1 else q
  }

  /** What a ring of n slots means: a sparse log of which the last n slots up to head are kept. */
  datatype Track = Track(n: nat, head: int, held: map<int, F32>) {

    ghost predicate Valid() {
      && n > 0
      && forall s :: s in held ==> head - n < s <= head && !IsNaN(held[s])
    }

    /** The value at a slot, NaN where there is none. */
    function At(slot: int): F32 {
      if slot in held then held[slot] else NAN32
    }

    /** The log with one more value, cut to the window that ends at the newer of head and slot. */
    function Put(slot: int, v: F32): (t: Track)
      requires !IsNaN(v)
      ensures t.n == n && t.head == (if slot > head then slot else head)
      ensures Valid() ==> t.Valid()
      ensures Valid() && slot <= head - n ==> t == this
    {
      var head' := if slot > head then slot else head;
      var kept := map s | s in held && head' - n < s :: held[s];
      assert Valid() && slot <= head - n ==> kept == held;
      Track(n, head', if slot > head' - n then kept[slot := v] else kept)
    }
  }

  function EmptyTrack(n: nat): (t: Track)
    ensures n > 0 ==> t.Valid()
  {
    Track(n, 0, map[])
  }

  /** The place of an absolute slot in a ring of n places. */
  function Index(slot: int, n: nat): (i: int)
    requires n > 0
    ensures 0 <= i < n
  {
    Rem(Rem(slot, n) + n, n)
  }

  /** The two remainders of Index undo each other's sign: it is the remainder rounded downwards. */
  lemma IndexIsMod(slot: int, n: nat)
    requires n > 0
    ensures Index(slot, n) == slot % n
  {
    var r := Rem(slot, n);
    var k := if slot >= 0 then slot / n else -(-slot / n);
    assert slot == n * k + r;
    if slot >= 0 {
      assert r == slot % n;
      ModUnique(r + n, n, 1, r);
    } else {
      assert r == -((-slot) % n);
      if r == 0 {
        ModUnique(slot, n, k, 0);
        ModUnique(r + n, n, 1, 0);
      } else {
        assert slot == n * (k - 1) + (r + n) by { assert n * (k - 1) == n * k - n; }
        ModUnique(slot, n, k - 1, r + n);
        ModUnique(r + n, n, 0, r + n);
      }
    }
  }

  lemma ModUnique(a: int, n: nat, q: int, r: int)
    requires n > 0 && 0 <= r < n && a == n * q + r
    ensures a % n == r
  {
    var d := q - a / n;
    assert n * d == n * q - n * (a / n);
    if d >= 1 {
      MulAtLeast(n, d);
    } else if d <= -1 {
      assert n * -d == -(n * d);
      MulAtLeast(n, -d);
    }
  }

  lemma {:induction false} MulAtLeast(n: nat, d: nat)
    requires d >= 1
    ensures n * d >= n
  {
    if d > 1 {
      MulAtLeast(n, d - 1);
      assert n * d == n * (d - 1) + n;
    }
  }

  /** n consecutive slots never share a place. */
  lemma PlacesDiffer(a: int, b: int, n: nat)
    requires n > 0 && a < b < a + n
    ensures Index(a, n) != Index(b, n)
  {
    IndexIsMod(a, n);
    IndexIsMod(b, n);
    if a % n == b % n {
      var q := b / n;
      var r := b % n;
      assert a == n * q + (r - (b - a));
      if r >= b - a {
        ModUnique(a, n, q, r - (b - a));
      } else {
        assert n * (q - 1) == n * q - n;
        ModUnique(a, n, q - 1, r - (b - a) + n);
      }
    }
  }

  /** What is stored at the place of a slot. */
  function Cell(vals: seq<F32>, slot: int): F32
    requires |vals| > 0
  {
    vals[Index(slot, |vals|)]
  }

  /** The places of the slots from lo to hi hold what the log reads. */
  ghost predicate Mirrors(vals: seq<F32>, log: Track, lo: int, hi: int)
    requires |vals| > 0
    decreases hi - lo
  {
    lo > hi || (Cell(vals, lo) == log.At(lo) && Mirrors(vals, log, lo + 1, hi))
  }

  lemma {:induction false} MirrorsAll(vals: seq<F32>, log: Track, lo: int, hi: int)
    requires |vals| > 0
    ensures Mirrors(vals, log, lo, hi) <==> forall s :: lo <= s <= hi ==> Cell(vals, s) == log.At(s)
    decreases hi - lo
  {
    if lo <= hi {
      MirrorsAll(vals, log, lo + 1, hi);
    }
  }

  /** Storing one slot leaves every other slot of any window around it alone. */
  lemma CellUpdate(vals: seq<F32>, slot: int, v: F32)
    requires |vals| > 0
    ensures var after := vals[Index(slot, |vals|) := v];
            && Cell(after, slot) == v
            && forall k :: slot - |vals| < k < slot + |vals| && k != slot ==> Cell(after, k) == Cell(vals, k)
  {
    forall k | slot - |vals| < k < slot + |vals| && k != slot
      ensures Index(k, |vals|) != Index(slot, |vals|)
    {
      if k < slot {
        PlacesDiffer(k, slot, |vals|);
      } else {
        PlacesDiffer(slot, k, |vals|);
      }
    }
  }

  /** Enough about the places after a Put to know the log they stand for. */
  lemma MirrorsAfterPut(before: seq<F32>, after: seq<F32>, log: Track, slot: int, v: F32)
    requires |before| == |after| == log.n > 0 && log.Valid() && !IsNaN(v) && slot > log.head - log.n
    requires Mirrors(before, log, log.head - log.n + 1, log.head)
    requires var head := if slot > log.head then slot else log.head;
             forall k :: head - log.n < k <= head ==>
               Cell(after, k) == if k == slot then v else if k > log.head then NAN32 else Cell(before, k)
    ensures var next := log.Put(slot, v); Mirrors(after, next, next.head - next.n + 1, next.head)
  {
    var next := log.Put(slot, v);
    MirrorsAll(before, log, log.head - log.n + 1, log.head);
    MirrorsAll(after, next, next.head - next.n + 1, next.head);
  }

  /**
   One tier of one series: an array used round and round.  Every slot of (head - n, head] owns one
   place; a place whose slot was never written holds NaN.
   */
  class Ring {
    const vals: array<F32>
    var head: int

    // What the array means.
    ghost var log: Track

    ghost predicate Valid()
      reads this, vals
    {
      && vals.Length > 0
      && log.Valid() && log.n == vals.Length && log.head == head
      && Mirrors(vals[..], log, head - vals.Length + 1, head)
    }

    constructor (n: nat)
      requires n > 0
      ensures Valid() && fresh(vals) && vals.Length == n
      ensures log == EmptyTrack(n)
    {
      vals := new F32[n](_ => NAN32);
      head := 0;
      log := EmptyTrack(n);
      new;
      MirrorsAll(vals[..], log, head - vals.Length + 1, head);
    }

    /** Writes one slot; every slot the ring moves over on the way is cleared. */
    method Put(slot: int, v: F32)
      requires Valid() && !IsNaN(v)
      modifies this, vals
      ensures Valid()
      ensures log == old(log).Put(slot, v)
    {
      hide Index, Mirrors, Track.Put;
      var n := vals.Length;
      ghost var before := vals[..];
      if slot > head {
        var from := if head + 1 > slot - n + 1 then head + 1 else slot - n + 1;
        var s := from;
        while s <= slot
          invariant from <= s <= slot + 1 && head == old(head) && log == old(log)
          invariant forall k :: slot - n < k <= slot ==>
            Cell(vals[..], k) == if from <= k < s then NAN32 else Cell(before, k)
        {
          CellUpdate(vals[..], s, NAN32);
          ghost var next := vals[..][Index(s, n) := NAN32];
          vals[Index(s, n)] := NAN32;
          assert vals[..] == next;
          s := s + 1;
        }
        head := slot;
      }
      log := log.Put(slot, v);
      if slot <= head - n {
        assert vals[..] == before;
        assert log == old(log);
        return;
      }
      CellUpdate(vals[..], slot, v);
      ghost var last := vals[..][Index(slot, n) := v];
      vals[Index(slot, n)] := v;
      assert vals[..] == last;
      MirrorsAfterPut(before, vals[..], old(log), slot, v);
    }

    /** Reads one slot, NaN for anything outside what the ring holds. */
    method At(slot: int) returns (v: F32)
      requires Valid()
      ensures v == log.At(slot)
    {
      if slot > head || slot <= head - vals.Length {
        return NAN32;
      }
      v := vals[Index(slot, vals.Length)];
      MirrorsAll(vals[..], log, head - vals.Length + 1, head);
      assert v == Cell(vals[..], slot);
    }
  }
}
