/**
 What a verification finds in the archive: every window of consecutive day files is sound.
 */
module AuditWindow {
  import opened Wrappers
  import opened Decimals
  import opened AuditRecord
  import opened AuditChain
  import opened AuditArchive

  function Path(day: nat, packed: bool): string {
    "audit-" + Decimal(day) + ".jsonl" + if packed then ".gz" else ""
  }

  predicate HasFile(s: Slot) {
    s.plain.Some? || s.packed.Some?
  }

  function LinesOf(recs: seq<Record>): (lines: seq<Line>)
    ensures |lines| == |recs| && forall i :: 0 <= i < |recs| ==> lines[i] == Entry(recs[i])
  {
    seq(|recs|, i requires 0 <= i < |recs| => Entry(recs[i]))
  }

  /** The files of some consecutive days, the first of which is day lo: one a day, the compressed one where there are two. */
  function Files(disk: seq<Slot>, lo: nat): seq<DayFile> {
    if disk == [] then []
    else
      var last := |disk| - 1;
      Files(disk[..last], lo) +
      if HasFile(disk[last]) then [DayFile(Path(lo + last, disk[last].packed.Some?), LinesOf(Content(disk[last])))]
      else []
  }

  lemma {:induction false} LinesRead(recs: seq<Record>, n: nat)
    requires n <= |recs|
    ensures Locate(LinesOf(recs), n).Some? && |Locate(LinesOf(recs), n).value| == n
    ensures forall i :: 0 <= i < n ==> Locate(LinesOf(recs), n).value[i] == Located(recs[i], i + 1)
  {
    if n > 0 {
      LinesRead(recs, n - 1);
    }
  }

  lemma FileReads(f: DayFile, recs: seq<Record>)
    requires f.lines == LinesOf(recs)
    ensures Readable(f) && Records(PlacesOf(f)) == recs
  {
    LinesRead(recs, |recs|);
    var read := Locate(f.lines, |f.lines|).value;
    PlacesAre(f, read);
    assert forall i :: 0 <= i < |recs| ==> Records(PlacesOf(f))[i] == read[i].rec == recs[i];
  }

  lemma RecordsConcat(a: seq<Place>, b: seq<Place>)
    ensures Records(a + b) == Records(a) + Records(b)
  {
  }

  lemma {:induction false} WindowOfInit(files: seq<DayFile>, more: seq<DayFile>, n: nat)
    requires n <= |files|
    ensures Window(files + more, n) == Window(files, n)
  {
    hide PlacesOf;
    if n > 0 {
      WindowOfInit(files, more, n - 1);
    }
  }

  /** Reading the files of some days gives the records of those days. */
  lemma {:induction false} FilesRead(disk: seq<Slot>, lo: nat)
    ensures forall f :: f in Files(disk, lo) ==> Readable(f)
    ensures Records(Window(Files(disk, lo), |Files(disk, lo)|)) == ReadAll(disk)
  {
    hide Window, Readable, Content;
    if disk == [] {
      assert Window([], 0) == [] by { NoWindow(); }
    } else {
      var last := |disk| - 1;
      var s := disk[last];
      var before := Files(disk[..last], lo);
      FilesRead(disk[..last], lo);
      if HasFile(s) {
        OneMoreFile(before, DayFile(Path(lo + last, s.packed.Some?), LinesOf(Content(s))), Content(s));
      } else {
        NoFile(s);
        assert Files(disk, lo) == before + [] == before;
      }
    }
  }

  lemma NoWindow()
    ensures Window([], 0) == []
  {
  }

  lemma NoFile(s: Slot)
    requires !HasFile(s)
    ensures Content(s) == []
  {
  }

  lemma OneMoreFile(files: seq<DayFile>, f: DayFile, recs: seq<Record>)
    requires f.lines == LinesOf(recs)
    ensures Readable(f)
    ensures Records(Window(files + [f], |files| + 1)) == Records(Window(files, |files|)) + recs
  {
    hide Locate, PlacesOf, Readable;
    FileReads(f, recs);
    var all := files + [f];
    WindowOfInit(files, [f], |files|);
    assert all[|files|] == f;
    assert Window(all, |files| + 1) == Window(all, |files|) + PlacesOf(all[|files|]);
    RecordsConcat(Window(files, |files|), PlacesOf(f));
  }

  /** A stretch of the log is a chain on its own: only its first record has to be taken on trust. */
  lemma StretchIsChain(h: Hash, log: seq<Record>, i: nat, j: nat)
    requires FromGenesis(h, log) && i <= j <= |log|
    ensures Chain(h, log[i..j])
  {
    hide HashOf;
    var recs := log[i..j];
    forall k | 0 <= k < |recs|
      ensures Links(h, recs, k)
    {
      assert Follows(h, log, i + k);
      if k > 0 {
        assert Follows(h, log, i + k - 1);
      }
    }
  }

  /** The files of days lo to hi - 1, in any state of any run, verify. */
  lemma EveryWindowVerifies(h: Hash, dayOf: string -> nat, w: World, lo: nat, hi: nat)
    requires Inv(h, dayOf, w) && lo <= hi <= |w.disk|
    ensures var files := Files(w.disk[lo..hi], lo); Exact(h, files, Sound, |files|)
  {
    hide FromGenesis, Tidy, NewestPlain, Running, Working, ReadAll, Chain, Readable;
    var a, b, c := w.disk[..lo], w.disk[lo..hi], w.disk[hi..];
    assert w.disk == a + (b + c);
    ReadAllConcat(b, c);
    ReadAllConcat(a, b + c);
    var i, j := |ReadAll(a)|, |ReadAll(a)| + |ReadAll(b)|;
    assert w.log[i..j] == ReadAll(b);
    StretchIsChain(h, w.log, i, j);
    FilesRead(b, lo);
  }

  /** Whatever a verification of such a window says, unless it was abandoned, is that the window is sound. */
  lemma VerdictIsSound(h: Hash, dayOf: string -> nat, w: World, lo: nat, hi: nat, v: Verdict, n: nat)
    requires Inv(h, dayOf, w) && lo <= hi <= |w.disk|
    requires Exact(h, Files(w.disk[lo..hi], lo), v, n)
    ensures v == Sound
  {
    hide Inv, Exact;
    EveryWindowVerifies(h, dayOf, w, lo, hi);
    var files := Files(w.disk[lo..hi], lo);
    ExactOnce(h, files, v, n, Sound, |files|);
  }
}
