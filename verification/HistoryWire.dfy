/**
 The primitive items of the history file: base-128 varints, zigzag for the signed ones, length-prefixed
 strings and little-endian words.  Every item is given as what is written and as what a reader takes off
 the front of its input; the lemmas say that a reader takes off exactly what was written.
 */
module HistoryWire {
  import opened Octets
  import opened Wrappers
  import opened HistoryRing

  const UINT64: nat := 0x1_0000_0000_0000_0000
  const INT64: int := 0x8000_0000_0000_0000
  const MAX_KEY: nat := 4096

  /** What a reader got, and the input it left. */
  datatype Item<+T> = Item(value: T, rest: Bytes)

  /* Unsigned varints: seven bits a byte, lowest first, the top bit set on every byte but the last. */

  function Uvarint(x: nat): (b: Bytes)
    ensures |b| >= 1
  {
    if x < 128 then [x] else [x % 128 + 128] + Uvarint(x / 128)
  }

  /** The reader refuses a tenth byte above 1 and an eleventh byte: neither fits 64 bits. */
  function ReadUvarint(b: Bytes, at: nat := 0): (r: Option<Item<nat>>)
    ensures r.Some? ==> |r.value.rest| < |b|
  {
    if b == [] || at == 10 || (at == 9 && 1 < b[0] < 128) then None
    else if b[0] < 128 then Some(Item(b[0], b[1..]))
    else match ReadUvarint(b[1..], at + 1)
      case None => None
      case Some(high) => Some(Item(b[0] - 128 + 128 * high.value, high.rest))
  }

  /** How large a number may still be when `at` bytes of it have been read. */
  function Room(at: nat): (r: nat)
    ensures r >= 1
    decreases 10 - at
  {
    if at >= 10 then 1 else if at == 9 then 2 else 128 * Room(at + 1)
  }

  lemma RoomAtStart()
    ensures Room(0) == UINT64
  {
    assert Room(5) == 128 * Room(6) == 128 * 128 * Room(7) == 128 * 128 * 128 * Room(8) == 128 * 128 * 128 * 128 * Room(9);
  }

  lemma {:induction false} UvarintReads(x: nat, tail: Bytes, at: nat)
    requires x < Room(at) && at <= 9
    ensures ReadUvarint(Uvarint(x) + tail, at) == Some(Item(x, tail))
  {
    var b := Uvarint(x) + tail;
    if x < 128 {
      assert b[1..] == tail;
    } else {
      assert b[1..] == Uvarint(x / 128) + tail;
      UvarintReads(x / 128, tail, at + 1);
    }
  }

  lemma UvarintRoundTrip(x: nat, tail: Bytes)
    requires x < UINT64
    ensures ReadUvarint(Uvarint(x) + tail) == Some(Item(x, tail))
  {
    RoomAtStart();
    UvarintReads(x, tail, 0);
  }

  lemma {:induction false} ReadsWithin(b: Bytes, at: nat)
    requires at <= 10 && ReadUvarint(b, at).Some?
    ensures at < 10 && ReadUvarint(b, at).value.value < Room(at)
    decreases |b|
  {
    assert at < 9 ==> Room(at) == 128 * Room(at + 1);
    if b[0] >= 128 {
      ReadsWithin(b[1..], at + 1);
    }
  }

  /** Whatever is read fits 64 bits. */
  lemma UvarintFits(b: Bytes)
    requires ReadUvarint(b).Some?
    ensures ReadUvarint(b).value.value < 0x1_0000_0000_0000_0000
  {
    ReadsWithin(b, 0);
    RoomAtStart();
  }

  /* Signed varints: the sign in the lowest bit. */

  function Zigzag(x: int): nat {
    if x >= 0 then 2 * x else -2 * x - 1
  }

  function Unzigzag(u: nat): int {
    if u % 2 == 0 then u / 2 else -(u / 2) - 1
  }

  function Varint(x: int): (b: Bytes)
    ensures |b| >= 1
  {
    Uvarint(Zigzag(x))
  }

  function ReadVarint(b: Bytes): (r: Option<Item<int>>)
    ensures r.Some? ==> |r.value.rest| < |b|
  {
    match ReadUvarint(b)
    case None => None
    case Some(u) => Some(Item(Unzigzag(u.value), u.rest))
  }

  lemma VarintRoundTrip(x: int, tail: Bytes)
    requires -INT64 <= x < INT64
    ensures ReadVarint(Varint(x) + tail) == Some(Item(x, tail))
  {
    UvarintRoundTrip(Zigzag(x), tail);
  }

  /* Strings. */

  function String(s: Bytes): (b: Bytes)
    ensures |b| >= 1
  {
    Uvarint(|s|) + s
  }

  function ReadString(b: Bytes): (r: Option<Item<Bytes>>)
    ensures r.Some? ==> |r.value.rest| < |b|
  {
    match ReadUvarint(b)
    case None => None
    case Some(n) =>
      if n.value > MAX_KEY || n.value > |n.rest| then None
      else Some(Item(n.rest[..n.value], n.rest[n.value..]))
  }

  /** A string comes back exactly when it is short enough to be believed. */
  lemma StringRoundTrip(s: Bytes, tail: Bytes)
    requires |s| < UINT64
    ensures ReadString(String(s) + tail) == if |s| <= 4096 then Some(Item(s, tail)) else None
  {
    assert String(s) + tail == Uvarint(|s|) + (s + tail);
    UvarintRoundTrip(|s|, s + tail);
  }

  /* Words: the bits of a float32, lowest byte first. */

  function Word(w: F32): Bytes {
    [w % 0x100, w / 0x100 % 0x100, w / 0x1_0000 % 0x100, w / 0x100_0000]
  }

  function ReadWord(b: Bytes): F32
    requires |b| >= 4
  {
    b[0] as int + 0x100 * (b[1] as int) + 0x1_0000 * (b[2] as int) + 0x100_0000 * (b[3] as int)
  }

  lemma WordRoundTrip(w: F32, tail: Bytes)
    ensures ReadWord(Word(w) + tail) == w
    ensures (Word(w) + tail)[4..] == tail
  {
    Quarter(w);
    Quarter(w / 0x100);
    Quarter(w / 0x1_0000);
  }

  lemma Quarter(n: nat)
    ensures n == n % 0x100 + 0x100 * (n / 0x100) && n / 0x100 / 0x100 == n / 0x1_0000
  {
  }
}
