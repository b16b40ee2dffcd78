/**
 Verification of the hash chain over a window of day files, and what an accepted window proves.
 */
module AuditChain {
  import opened Wrappers
  import opened JsonTree
  import opened AuditJson
  import opened AuditRecord
  import opened AuditScan

  /** The hash function; a collision-free one is injective on texts. */
  type Hash = string -> string

  ghost predicate CollisionFree(h: Hash) {
    forall a, b :: h(a) == h(b) ==> a == b
  }

  /** The anchor before the first record of a data directory. */
  const GENESIS := "666cff38f20b5876c113a32abf0153c1d4b518c855df7ae2c0551ce9044745cf"

  ghost function HashOf(h: Hash, r: Record): string {
    h(r.prevHash + Canonical(r))
  }

  method ComputeHash(h: Hash, r: Record) returns (out: string)
    ensures out == h(r.prevHash + Canonical(r)) == HashOf(h, r)
  {
    var canon := CanonicalJSON(r);
    out := h(r.prevHash + canon);
  }

  /* Chains. */

  /** Record k of a sequence adds up: it names its predecessor's hash and carries its own. */
  ghost predicate Links(h: Hash, recs: seq<Record>, k: nat)
    requires k < |recs|
  {
    (if k == 0 then recs[0].seqNo == 1 ==> recs[0].prevHash == GENESIS else recs[k].prevHash == recs[k - 1].hash) &&
    recs[k].hash == HashOf(h, recs[k])
  }

  ghost predicate Chain(h: Hash, recs: seq<Record>) {
    forall k :: 0 <= k < |recs| ==> Links(h, recs, k)
  }

  ghost predicate AllSane(recs: seq<Record>) {
    forall k :: 0 <= k < |recs| ==> Sane(recs[k])
  }

  /**
   What a chain is, written out: every hash is that of the previous hash and the record's text, every record but
   the first names the hash before it, and a first record numbered one names the anchor.
   */
  lemma ChainMeans(h: Hash, recs: seq<Record>)
    ensures Chain(h, recs) <==>
            && (forall k :: 0 <= k < |recs| ==> recs[k].hash == h(recs[k].prevHash + Canonical(recs[k])))
            && (forall k :: 0 < k < |recs| ==> recs[k].prevHash == recs[k - 1].hash)
            && (recs != [] && recs[0].seqNo == 1 ==>
                  recs[0].prevHash == "666cff38f20b5876c113a32abf0153c1d4b518c855df7ae2c0551ce9044745cf")
  {
    hide Canonical;
    if Chain(h, recs) {
      forall k | 0 <= k < |recs|
        ensures recs[k].hash == h(recs[k].prevHash + Canonical(recs[k]))
        ensures k > 0 ==> recs[k].prevHash == recs[k - 1].hash
      {
        assert Links(h, recs, k);
      }
      if recs != [] {
        assert Links(h, recs, 0);
      }
    }
  }

  /** All but the last record of a chain. */
  lemma ChainInit(h: Hash, a: seq<Record>)
    requires Chain(h, a) && a != []
    ensures a[|a| - 1].hash == HashOf(h, a[|a| - 1])
    ensures Chain(h, a[..|a| - 1])
    ensures |a| > 1 ==> a[|a| - 2].hash == a[|a| - 1].prevHash
  {
    hide HashOf;
    assert Links(h, a, |a| - 1);
    var init := a[..|a| - 1];
    forall k | 0 <= k < |init|
      ensures Links(h, init, k)
    {
      assert Links(h, a, k);
    }
  }

  /**
   Two accepted windows that end in one hash are one history: the shorter is the end of the longer,
   record for record.
   */
  lemma {:induction false} Binding(h: Hash, a: seq<Record>, b: seq<Record>)
    requires CollisionFree(h) && Chain(h, a) && Chain(h, b) && AllSane(a) && AllSane(b)
    requires 0 < |a| <= |b| && a[|a| - 1].hash == b[|b| - 1].hash
    ensures a == b[|b| - |a|..]
    decreases |a|
  {
    hide Sane, HashOf, Chain, CollisionFree;
    var i, j := |a| - 1, |b| - 1;
    ChainInit(h, a);
    ChainInit(h, b);
    SameHash(h, a[i], b[j]);
    if i > 0 {
      Binding(h, a[..i], b[..j]);
      assert a[..i] == b[j - i..j];
    }
    assert a == a[..i] + [a[i]];
    assert b[|b| - |a|..] == b[j - i..j] + [b[j]];
  }

  lemma SameHash(h: Hash, r: Record, s: Record)
    requires CollisionFree(h) && Sane(r) && Sane(s)
    requires r.hash == HashOf(h, r) && s.hash == HashOf(h, s) && r.hash == s.hash
    ensures r == s
  {
    hide Canonical, Sane;
    HashedTextTells(r.prevHash, r, s.prevHash, s);
    CanonicalTells(r, s);
  }

  /* Day files. */

  datatype Line = Blank | Entry(rec: Record) | Garbage

  datatype Located = Located(rec: Record, line: nat)

  datatype DayFile = DayFile(path: string, lines: seq<Line>)

  /** Decodes a file in write order, with the line each record stands on; None when a line does not decode. */
  method ReadFileLocated(f: DayFile) returns (out: Option<seq<Located>>)
    ensures out == Locate(f.lines, |f.lines|)
  {
    var recs: seq<Located> := [];
    for at := 0 to |f.lines|
      invariant Locate(f.lines, at) == Some(recs)
    {
      match f.lines[at]
      case Blank =>
      case Garbage =>
        NoneStays(f.lines, at + 1, |f.lines|);
        return None;
      case Entry(rec) => recs := recs + [Located(rec, at + 1)];
    }
    out := Some(recs);
  }

  function Locate(lines: seq<Line>, n: nat): Option<seq<Located>>
    requires n <= |lines|
  {
    if n == 0 then Some([])
    else
      match Locate(lines, n - 1)
      case None => None
      case Some(recs) =>
        match lines[n - 1]
        case Blank => Some(recs)
        case Garbage => None
        case Entry(rec) => Some(recs + [Located(rec, n)])
  }

  lemma {:induction false} NoneStays(lines: seq<Line>, m: nat, n: nat)
    requires m <= n <= |lines| && Locate(lines, m) == None
    ensures Locate(lines, n) == None
  {
    if m < n {
      NoneStays(lines, m, n - 1);
    }
  }

  /** A file cannot be read exactly when one of its lines does not decode. */
  lemma {:induction false} GarbageIsUnreadable(lines: seq<Line>, n: nat)
    requires n <= |lines|
    ensures Locate(lines, n) == None <==> exists i :: 0 <= i < n && lines[i] == Garbage
  {
    if n > 0 {
      GarbageIsUnreadable(lines, n - 1);
    }
  }

  /** The line of a located record is the line of the file it stands on, blank lines counted, and rises. */
  lemma {:induction false} LinesAreExact(lines: seq<Line>, n: nat, i: nat)
    requires n <= |lines| && Locate(lines, n).Some? && i < |Locate(lines, n).value|
    ensures var recs := Locate(lines, n).value;
            1 <= recs[i].line <= n && lines[recs[i].line - 1] == Entry(recs[i].rec) &&
            (i > 0 ==> recs[i - 1].line < recs[i].line)
  {
    var before := Locate(lines, n - 1).value;
    if i < |before| {
      LinesAreExact(lines, n - 1, i);
    } else if i > 0 {
      LinesAreExact(lines, n - 1, i - 1);
    }
  }

  /** No record of a file is passed over. */
  lemma {:induction false} EveryEntryLocated(lines: seq<Line>, n: nat, i: nat)
    requires i < n <= |lines| && Locate(lines, n).Some? && lines[i].Entry?
    ensures Located(lines[i].rec, i + 1) in Locate(lines, n).value
  {
    var recs := Locate(lines, n).value;
    if i < n - 1 {
      EveryEntryLocated(lines, n - 1, i);
    } else {
      assert recs[|recs| - 1] == Located(lines[i].rec, n);
    }
  }

  /* Verification of a window of files. */

  datatype Place = Place(path: string, line: nat, rec: Record)

  datatype Verdict =
    | Sound
    | Broken(path: string, line: nat)
    | Unreadable(path: string)
    | Abandoned

  ghost predicate Readable(f: DayFile) {
    Locate(f.lines, |f.lines|).Some?
  }

  ghost function PlacesOf(f: DayFile): (s: seq<Place>) {
    if !Readable(f) then []
    else
      var recs := Locate(f.lines, |f.lines|).value;
      seq(|recs|, i requires 0 <= i < |recs| => Place(f.path, recs[i].line, recs[i].rec))
  }

  /** Every record of the first n files, in order. */
  ghost function Window(files: seq<DayFile>, n: nat): seq<Place>
    requires n <= |files|
  {
    if n == 0 then [] else Window(files, n - 1) + PlacesOf(files[n - 1])
  }

  ghost function Records(places: seq<Place>): (s: seq<Record>)
    ensures |s| == |places| && forall i :: 0 <= i < |places| ==> s[i] == places[i].rec
  {
    seq(|places|, i requires 0 <= i < |places| => places[i].rec)
  }

  /** The first place of a list at which the chain does not add up. */
  ghost predicate FirstBreak(h: Hash, places: seq<Place>, k: nat) {
    k < |places| && !Links(h, Records(places), k) && forall i :: 0 <= i < k ==> Links(h, Records(places), i)
  }

  ghost predicate BreaksAt(h: Hash, places: seq<Place>, k: nat, path: string, line: nat) {
    FirstBreak(h, places, k) && places[k].path == path && places[k].line == line
  }

  /** What each answer claims about the files; n is how many of them were read. */
  ghost predicate Exact(h: Hash, files: seq<DayFile>, v: Verdict, n: nat) {
    n <= |files| &&
    (forall i :: 0 <= i < n ==> Readable(files[i])) &&
    match v
    case Sound => n == |files| && Chain(h, Records(Window(files, n)))
    case Broken(path, line) =>
      exists k: nat :: BreaksAt(h, Window(files, n), k, path, line)
    case Unreadable(path) =>
      n < |files| && !Readable(files[n]) && files[n].path == path && Chain(h, Records(Window(files, n)))
    case Abandoned => false
  }

  lemma {:induction false} WindowGrows(files: seq<DayFile>, m: nat, n: nat)
    requires m <= n <= |files|
    ensures Window(files, m) <= Window(files, n)
  {
    hide PlacesOf;
    if m < n {
      WindowGrows(files, m, n - 1);
    }
  }

  lemma LinksStay(h: Hash, a: seq<Place>, b: seq<Place>, i: nat)
    requires a <= b && i < |a|
    ensures Links(h, Records(a), i) <==> Links(h, Records(b), i)
  {
    hide HashOf;
    assert a[i] == b[i] && (i > 0 ==> a[i - 1] == b[i - 1]);
  }

  lemma BreakStays(h: Hash, a: seq<Place>, b: seq<Place>, k: nat)
    requires a <= b && FirstBreak(h, a, k)
    ensures FirstBreak(h, b, k) && b[k] == a[k]
  {
    hide Links;
    forall i | 0 <= i < |a|
      ensures Links(h, Records(a), i) <==> Links(h, Records(b), i)
    {
      LinksStay(h, a, b, i);
    }
  }

  /** There is one right answer: a window is sound, or it breaks at one first place, or a file cannot be read. */
  lemma ExactOnce(h: Hash, files: seq<DayFile>, v: Verdict, m: nat, w: Verdict, n: nat)
    requires Exact(h, files, v, m) && Exact(h, files, w, n)
    ensures v == w
  {
    hide Exact;
    if m <= n {
      ExactOnceOrdered(h, files, v, m, w, n);
    } else {
      ExactOnceOrdered(h, files, w, n, v, m);
    }
  }

  lemma ExactOnceOrdered(h: Hash, files: seq<DayFile>, v: Verdict, m: nat, w: Verdict, n: nat)
    requires Exact(h, files, v, m) && Exact(h, files, w, n) && m <= n
    ensures v == w
  {
    hide Links, Window, Readable;
    if v.Broken? {
      var k: nat :| BreaksAt(h, Window(files, m), k, v.path, v.line);
      WindowGrows(files, m, n);
      BreakStays(h, Window(files, m), Window(files, n), k);
      assert w.Broken?;
      var j: nat :| BreaksAt(h, Window(files, n), j, w.path, w.line);
      assert j == k;
    } else {
      assert m == n;
    }
  }

  /** How often the caller is asked whether it is still there. */
  const CANCEL_CHECK_EVERY := 256

  /** What the loop knows of the records it has passed. */
  ghost predicate Standing(h: Hash, seen: seq<Place>, prev: string, seeded: bool) {
    Chain(h, Records(seen)) && seeded == (seen != []) && prev == if seen == [] then "" else seen[|seen| - 1].rec.hash
  }

  /** One more record, looked at the way the loop looks at it. */
  lemma NextLinks(h: Hash, seen: seq<Place>, prev: string, seeded: bool, p: Place)
    requires Standing(h, seen, prev, seeded)
    ensures Links(h, Records(seen + [p]), |seen|) <==>
            (if !seeded then p.rec.seqNo == 1 ==> p.rec.prevHash == GENESIS else p.rec.prevHash == prev) &&
            p.rec.hash == HashOf(h, p.rec)
    ensures forall i :: 0 <= i < |seen| ==> Links(h, Records(seen + [p]), i)
  {
    hide HashOf;
    var recs := Records(seen + [p]);
    assert Records(seen) == recs[..|seen|];
    forall i | 0 <= i < |seen|
      ensures Links(h, recs, i)
    {
      assert Links(h, Records(seen), i);
    }
  }

  lemma BreakFound(h: Hash, seen: seq<Place>, p: Place, rest: seq<Place>)
    requires FirstBreak(h, seen + [p], |seen|)
    ensures FirstBreak(h, seen + ([p] + rest), |seen|)
  {
    hide HashOf;
    var a, b := Records(seen + [p]), Records(seen + ([p] + rest));
    assert a == b[..|a|];
    forall i | 0 <= i < |a|
      ensures Links(h, a, i) <==> Links(h, b, i)
    {
    }
  }

  /**
   Recomputes the chain over the files in order.  `gone(k)` says whether the caller had left at the k-th
   time of asking; n is how many files were read.
   */
  method VerifyContext(h: Hash, files: seq<DayFile>, gone: nat -> bool) returns (v: Verdict, ghost n: nat)
    ensures v != Abandoned ==> Exact(h, files, v, n)
    ensures (forall k :: !gone(k)) ==> v != Abandoned
  {
    hide HashOf, Locate, Chain, Links, Standing, PlacesOf;
    var prev, seeded, asked := "", false, 0;
    n := 0;
    StandingAtStart(h);
    for f := 0 to |files|
      invariant n == f && 0 <= asked
      invariant forall i :: 0 <= i < f ==> Readable(files[i])
      invariant Standing(h, Window(files, f), prev, seeded)
    {
      if gone(asked) {
        return Abandoned, n;
      }
      asked := asked + 1;
      var recs := ReadFileLocated(files[f]);
      if recs.None? {
        StandingIsChain(h, Window(files, f), prev, seeded);
        return Unreadable(files[f].path), f;
      }
      ghost var places := PlacesOf(files[f]);
      PlacesAre(files[f], recs.value);
      n := f + 1;
      ghost var before := Window(files, f);
      assert before + places[..0] == before;
      for i := 0 to |recs.value|
        invariant 0 <= asked
        invariant Standing(h, before + places[..i], prev, seeded)
      {
        var rec := recs.value[i].rec;
        if i % CANCEL_CHECK_EVERY == 0 {
          if gone(asked) {
            return Abandoned, n;
          }
          asked := asked + 1;
        }
        ghost var seen := before + places[..i];
        NextPlace(before, places, i);
        NextLinks(h, seen, prev, seeded, places[i]);
        var want := ComputeHash(h, rec);
        var follows := if !seeded then rec.seqNo != 1 || rec.prevHash == GENESIS else rec.prevHash == prev;
        if !follows || want != rec.hash {
          BreakFound(h, seen, places[i], places[i + 1..]);
          assert BreaksAt(h, Window(files, n), |seen|, files[f].path, recs.value[i].line);
          return Broken(files[f].path, recs.value[i].line), n;
        }
        seeded := true;
        prev := rec.hash;
        StandingMore(h, seen, places[i]);
      }
      assert places[..|places|] == places;
    }
    StandingIsChain(h, Window(files, |files|), prev, seeded);
    v := Sound;
  }

  lemma StandingAtStart(h: Hash)
    ensures Standing(h, [], "", false)
  {
  }

  lemma StandingIsChain(h: Hash, seen: seq<Place>, prev: string, seeded: bool)
    requires Standing(h, seen, prev, seeded)
    ensures Chain(h, Records(seen))
  {
  }

  lemma StandingMore(h: Hash, seen: seq<Place>, p: Place)
    requires forall i :: 0 <= i <= |seen| ==> Links(h, Records(seen + [p]), i)
    ensures Standing(h, seen + [p], p.rec.hash, true)
  {
  }

  lemma NextPlace(before: seq<Place>, places: seq<Place>, i: nat)
    requires i < |places|
    ensures before + places[..i + 1] == before + places[..i] + [places[i]]
    ensures before + places == before + places[..i] + ([places[i]] + places[i + 1..])
  {
  }

  lemma PlacesAre(f: DayFile, recs: seq<Located>)
    requires Locate(f.lines, |f.lines|) == Some(recs)
    ensures Readable(f) && |PlacesOf(f)| == |recs|
    ensures forall i :: 0 <= i < |recs| ==> PlacesOf(f)[i] == Place(f.path, recs[i].line, recs[i].rec)
  {
  }
}
