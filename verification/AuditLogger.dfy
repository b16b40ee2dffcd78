/**
 The writer of the archive and its housekeeping, changing a directory in place.  Every method says which
 steps of the archive it has taken, so that what holds between any two steps holds wherever it is cut off.
 */
module AuditLogger {
  import opened Wrappers
  import opened JsonTree
  import opened AuditRecord
  import opened AuditChain
  import opened AuditArchive
  import opened AuditRuns
  import opened AuditWindow
  import AuditRedact

  /* Listing. */

  datatype FileName = FileName(day: nat, packed: bool)

  /** The directory in lexicographic order: a day's plain file right before its compressed one. */
  function Names(disk: seq<Slot>): seq<FileName> {
    if disk == [] then []
    else
      var last := |disk| - 1;
      Names(disk[..last]) +
      (if disk[last].plain.Some? then [FileName(last, false)] else []) +
      (if disk[last].packed.Some? then [FileName(last, true)] else [])
  }

  /** One file a day, the compressed one where there are two. */
  function Chosen(disk: seq<Slot>): seq<FileName> {
    if disk == [] then []
    else
      var last := |disk| - 1;
      Chosen(disk[..last]) + if HasFile(disk[last]) then [FileName(last, disk[last].packed.Some?)] else []
  }

  /** Where a day stands in a list of files; the length of the list when it does not. */
  function Find(files: seq<FileName>, day: nat): (i: nat)
    ensures i <= |files| && (i < |files| ==> files[i].day == day)
    ensures forall j :: 0 <= j < i ==> files[j].day != day
  {
    if files == [] then 0 else if files[0].day == day then 0 else 1 + Find(files[1..], day)
  }

  lemma FindIs(files: seq<FileName>, day: nat, i: nat)
    requires i <= |files| && (i < |files| ==> files[i].day == day)
    requires forall j :: 0 <= j < i ==> files[j].day != day
    ensures Find(files, day) == i
  {
  }

  function Dedupe(paths: seq<FileName>): seq<FileName> {
    if paths == [] then []
    else
      var out, p := Dedupe(paths[..|paths| - 1]), paths[|paths| - 1];
      var i := Find(out, p.day);
      if i == |out| then out + [p] else if p.packed then out[i := p] else out
  }

  lemma FindReplaced(out: seq<FileName>, i: nat, p: FileName, d: nat)
    requires i < |out| && out[i].day == p.day
    ensures Find(out[i := p], d) == Find(out, d)
  {
    FindIs(out[i := p], d, Find(out, d));
  }

  lemma FindAppended(out: seq<FileName>, p: FileName, d: nat)
    requires Find(out, p.day) == |out|
    ensures Find(out + [p], d) == if d == p.day || Find(out, d) < |out| then Find(out, d) else |out| + 1
  {
    FindIs(out + [p], d, if d == p.day || Find(out, d) < |out| then Find(out, d) else |out| + 1);
  }

  /** Where each day met so far stands. */
  ghost predicate Seen(seen: map<nat, nat>, out: seq<FileName>) {
    forall d: nat :: if d in seen then seen[d] < |out| && seen[d] == Find(out, d) else Find(out, d) == |out|
  }

  lemma SeenReplaced(seen: map<nat, nat>, out: seq<FileName>, i: nat, p: FileName)
    requires Seen(seen, out) && i < |out| && out[i].day == p.day
    ensures Seen(seen, out[i := p])
  {
    hide Find;
    forall d: nat {
      FindReplaced(out, i, p, d);
    }
  }

  lemma SeenAppended(seen: map<nat, nat>, out: seq<FileName>, p: FileName)
    requires Seen(seen, out) && p.day !in seen
    ensures Seen(seen[p.day := |out|], out + [p])
  {
    hide Find;
    forall d: nat {
      FindAppended(out, p, d);
    }
  }

  /** Collapses a day that has both files to its compressed one. */
  method DedupeByDay(paths: seq<FileName>) returns (out: seq<FileName>)
    ensures out == Dedupe(paths)
  {
    hide Find;
    var seen: map<nat, nat> := map[];
    out := [];
    assert paths[..0] == [];
    for n := 0 to |paths|
      invariant out == Dedupe(paths[..n])
      invariant Seen(seen, out)
    {
      var p := paths[n];
      assert paths[..n + 1][..n] == paths[..n];
      if p.day in seen {
        if p.packed {
          SeenReplaced(seen, out, seen[p.day], p);
          out := out[seen[p.day] := p];
        }
      } else {
        SeenAppended(seen, out, p);
        seen := seen[p.day := |out|];
        out := out + [p];
      }
    }
    assert paths[..|paths|] == paths;
  }

  lemma {:induction false} ChosenDays(disk: seq<Slot>)
    ensures forall f :: f in Chosen(disk) ==> f.day < |disk|
  {
    if disk != [] {
      ChosenDays(disk[..|disk| - 1]);
    }
  }

  lemma DedupeNew(paths: seq<FileName>, f: FileName)
    requires Find(Dedupe(paths), f.day) == |Dedupe(paths)|
    ensures Dedupe(paths + [f]) == Dedupe(paths) + [f]
  {
    assert (paths + [f])[..|paths|] == paths;
  }

  lemma DedupeAgain(paths: seq<FileName>, f: FileName, out: seq<FileName>, plain: FileName)
    requires Dedupe(paths) == out + [plain] && plain.day == f.day && f.packed
    requires Find(out, f.day) == |out|
    ensures Dedupe(paths + [f]) == out + [f]
  {
    hide Find;
    assert (paths + [f])[..|paths|] == paths;
    FindAppended(out, plain, f.day);
    assert (out + [plain])[|out| := f] == out + [f];
  }

  /** What is left of a listing is one file for every day that has any, in the order of the days. */
  lemma {:induction false} DedupedIsChosen(disk: seq<Slot>)
    ensures Dedupe(Names(disk)) == Chosen(disk)
  {
    hide Find, Dedupe;
    if disk == [] {
      DedupeNothing();
    } else {
      var last := |disk| - 1;
      var init := Names(disk[..last]);
      var some := Chosen(disk[..last]);
      DedupedIsChosen(disk[..last]);
      ChosenDays(disk[..last]);
      FindIs(some, last, |some|);
      var plain, packed := FileName(last, false), FileName(last, true);
      if disk[last].plain.Some? {
        DedupeNew(init, plain);
        DedupeAgain(init + [plain], packed, some, plain);
        assert init + [plain] + [] == init + [plain];
      } else {
        DedupeNew(init, packed);
        assert init + [] == init && init + [] + [] == init && init + [] + [packed] == init + [packed];
      }
    }
  }

  lemma DedupeNothing()
    ensures Dedupe([]) == []
  {
  }

  function ReadFile(disk: seq<Slot>, f: FileName): seq<Record> {
    if f.day >= |disk| then []
    else
      var file := if f.packed then disk[f.day].packed else disk[f.day].plain;
      if file.Some? then file.value else []
  }

  function ReadFiles(disk: seq<Slot>, files: seq<FileName>): seq<Record> {
    if files == [] then [] else ReadFiles(disk, files[..|files| - 1]) + ReadFile(disk, files[|files| - 1])
  }

  lemma {:induction false} ReadFilesOfInit(disk: seq<Slot>, n: nat, files: seq<FileName>)
    requires n <= |disk| && forall f :: f in files ==> f.day < n
    ensures ReadFiles(disk, files) == ReadFiles(disk[..n], files)
  {
    if files != [] {
      ReadFilesOfInit(disk, n, files[..|files| - 1]);
      assert files[|files| - 1] in files;
    }
  }

  lemma ReadsContent(disk: seq<Slot>, d: nat)
    requires d < |disk| && HasFile(disk[d])
    ensures ReadFile(disk, FileName(d, disk[d].packed.Some?)) == Content(disk[d])
  {
  }

  lemma ReadsOneMore(disk: seq<Slot>, files: seq<FileName>, f: FileName)
    ensures ReadFiles(disk, files + [f]) == ReadFiles(disk, files) + ReadFile(disk, f)
  {
    hide ReadFile;
    assert (files + [f])[..|files|] == files;
  }

  /** Reading the files that are left of a listing is reading the archive. */
  lemma {:induction false} ChosenRead(disk: seq<Slot>)
    ensures ReadFiles(disk, Chosen(disk)) == ReadAll(disk)
  {
    hide ReadFile, ReadFiles, Content;
    if disk == [] {
      NothingRead(disk);
    } else {
      var last := |disk| - 1;
      var init := Chosen(disk[..last]);
      ChosenRead(disk[..last]);
      ChosenDays(disk[..last]);
      ReadFilesOfInit(disk, last, init);
      if HasFile(disk[last]) {
        ReadsContent(disk, last);
        ReadsOneMore(disk, init, FileName(last, disk[last].packed.Some?));
      } else {
        NoFile(disk[last]);
        assert init + [] == init;
      }
    }
  }

  lemma NothingRead(disk: seq<Slot>)
    ensures ReadFiles(disk, []) == []
  {
  }

  /* The day files a verification is given. */

  function DayFiles(disk: seq<Slot>, files: seq<FileName>): (r: seq<DayFile>)
    ensures |r| == |files|
  {
    seq(|files|, i requires 0 <= i < |files| =>
      DayFile(Path(files[i].day, files[i].packed), LinesOf(ReadFile(disk, files[i]))))
  }

  /** The last files of a listing are the files of the last days. */
  lemma {:induction false} LastFilesAreDays(disk: seq<Slot>, k: nat) returns (lo: nat)
    requires k <= |Chosen(disk)|
    ensures lo <= |disk| && DayFiles(disk, Chosen(disk)[k..]) == Files(disk[lo..], lo)
  {
    hide ReadFile;
    if k == |Chosen(disk)| {
      lo := |disk|;
      assert disk[lo..] == [];
    } else {
      var last := |disk| - 1;
      var init := disk[..last];
      if k <= |Chosen(init)| {
        lo := LastFilesAreDays(init, k);
        ChosenDays(init);
        var before := Chosen(init)[k..];
        assert disk[lo..][..last - lo] == init[lo..];
        SameDayFiles(disk, last, before);
        if HasFile(disk[last]) {
          var f := FileName(last, disk[last].packed.Some?);
          assert Chosen(disk)[k..] == before + [f];
          OneDayFile(disk, before, last);
        } else {
          assert Chosen(disk)[k..] == before;
        }
      }
    }
  }

  lemma SameDayFiles(disk: seq<Slot>, n: nat, files: seq<FileName>)
    requires n <= |disk| && forall f :: f in files ==> f.day < n
    ensures DayFiles(disk, files) == DayFiles(disk[..n], files)
  {
    hide LinesOf, Path;
    forall i | 0 <= i < |files|
      ensures ReadFile(disk, files[i]) == ReadFile(disk[..n], files[i])
    {
      assert files[i] in files;
    }
  }

  lemma OneDayFile(disk: seq<Slot>, before: seq<FileName>, d: nat)
    requires d < |disk| && HasFile(disk[d])
    ensures var packed := disk[d].packed.Some?;
            DayFiles(disk, before + [FileName(d, packed)]) ==
            DayFiles(disk, before) + [DayFile(Path(d, packed), LinesOf(Content(disk[d])))]
  {
    hide LinesOf, Path;
  }

  /* The writer. */

  class Directory {
    var slots: seq<Slot>

    constructor ()
      ensures slots == []
    {
      slots := [];
    }
  }

  /** Where the compression of a day fails, if it does. */
  datatype Fault = Clean | FailsDraft(n: nat, left: bool) | FailsRemove | FailsLastSync

  /** The files of a day after its compressing: at every point its records are in a file with a name of its own. */
  function Left(s: Slot, fault: Fault): Slot
    requires s.plain.Some?
  {
    match fault
    case FailsDraft(n, left) =>
      s.(draft := if !left then None else if n < |s.plain.value| then Some(s.plain.value[..n]) else s.plain)
    case FailsRemove => Slot(s.plain, s.plain, None)
    case _ => Slot(None, s.plain, None)
  }

  class Logger {
    const h: Hash
    const dayOf: string -> nat
    const dir: Directory

    var open: bool
    var seqNo: nat
    var lastHash: string
    var day: nat
    var pending: map<nat, Record>

    /** The opening of the log is still under way, or no day has turned since. */
    var booting: bool

    /** Everything ever appended to the directory, and how far a compression has come. */
    ghost var log: seq<Record>
    ghost var todo: seq<nat>
    ghost var stage: Stage

    ghost function State(): World
      reads this, dir
    {
      World(dir.slots, if open then Up(seqNo, lastHash, day, booting, todo, stage) else Down, log)
    }

    ghost predicate Valid()
      reads this, dir
    {
      Inv(h, dayOf, State())
    }

    /** From state w these steps lead here. */
    ghost predicate Took(w: World, trace: seq<Step>)
      reads this, dir
    {
      Legal(h, dayOf, w, trace) && After(h, dayOf, w, trace) == State()
    }

    constructor (h: Hash, dayOf: string -> nat, dir: Directory, ghost log: seq<Record>)
      requires Inv(h, dayOf, World(dir.slots, Down, log))
      ensures this.h == h && this.dayOf == dayOf && this.dir == dir && this.log == log
      ensures Valid() && !open
    {
      this.h, this.dayOf, this.dir, this.log := h, dayOf, dir, log;
      open, pending, booting, todo, stage := false, map[], false, [], Fresh;
      new;
    }

    /** Every day file of the directory, one a day. */
    method AllFiles() returns (files: seq<FileName>)
      ensures files == Chosen(dir.slots)
    {
      files := DedupeByDay(Names(dir.slots));
      DedupedIsChosen(dir.slots);
    }

    /** The tail of the chain on disk, found walking back past empty files. */
    method Resume() returns (tailSeq: nat, tailHash: string)
      ensures tailSeq == TailSeq(ReadAll(dir.slots)) && tailHash == TailHash(ReadAll(dir.slots))
    {
      hide ReadFile, Chosen, ReadAll;
      var files := AllFiles();
      ChosenRead(dir.slots);
      tailSeq, tailHash := 0, GENESIS;
      var i := |files|;
      assert files[..i] == files;
      while i > 0
        invariant 0 <= i <= |files|
        invariant ReadFiles(dir.slots, files[..i]) == ReadAll(dir.slots)
      {
        i := i - 1;
        assert files[..i + 1][..i] == files[..i];
        var recs := ReadFile(dir.slots, files[i]);
        if recs != [] {
          var last := recs[|recs| - 1];
          return last.seqNo, last.hash;
        }
      }
    }

    /** A compression has reached this stage of this day. */
    ghost predicate At(d: nat, stage: Stage)
      reads this, dir
    {
      Valid() && open && todo != [] && todo[0] == d && this.stage == stage &&
      d < |dir.slots| && dir.slots[d].plain.Some?
    }

    /** One step has been taken since state w. */
    ghost predicate Stepped(w: World, s: Step)
      reads this, dir
    {
      Enabled(w, s) && Admissible(dayOf, w, s) && Do(h, w, s) == State()
    }

    /** Writes the temporary, or the first n records of it when that is as far as it gets. */
    method WriteDraft(d: nat, n: nat)
      requires At(d, Fresh) && n <= |dir.slots[d].plain.value|
      modifies this`stage, dir
      ensures At(d, Drafting(n)) && Stepped(old(State()), Draft(n))
      ensures dir.slots == old(dir.slots)[d := old(dir.slots)[d].(draft := Some(old(dir.slots)[d].plain.value[..n]))]
      ensures todo == old(todo)
    {
      hide Inv, Do;
      DraftDoes(h, dayOf, State(), n);
      dir.slots := dir.slots[d := dir.slots[d].(draft := Some(dir.slots[d].plain.value[..n]))];
      stage := Drafting(n);
    }

    /** Renames the finished temporary over the compressed file. */
    method RenameDraft(d: nat)
      requires d < |dir.slots| && dir.slots[d].plain.Some? && dir.slots[d].draft.Some?
      requires At(d, Drafting(|dir.slots[d].plain.value|))
      modifies this`stage, dir
      ensures At(d, Renamed) && Stepped(old(State()), Rename)
      ensures dir.slots == old(dir.slots)[d := old(dir.slots)[d].(packed := old(dir.slots)[d].draft, draft := None)]
      ensures todo == old(todo)
    {
      hide Inv, Do;
      RenameDoes(h, dayOf, State());
      dir.slots := dir.slots[d := dir.slots[d].(packed := dir.slots[d].draft, draft := None)];
      stage := Renamed;
    }

    /** The plain file goes only after its replacement has its name. */
    method RemovePlain(d: nat)
      requires At(d, Renamed)
      modifies this`todo, this`stage, dir
      ensures Valid() && Stepped(old(State()), Remove)
      ensures todo == old(todo)[1..] && stage == Fresh
      ensures dir.slots == old(dir.slots)[d := old(dir.slots)[d].(plain := None)]
    {
      hide Inv, Do;
      RemoveDoes(h, dayOf, State());
      dir.slots := dir.slots[d := dir.slots[d].(plain := None)];
      todo, stage := todo[1..], Fresh;
    }

    /** An error ends the compressing; while the log is being opened it refuses to open. */
    method Fail(d: nat, ghost stage: Stage, drafting: bool, left: bool)
      requires At(d, stage) && drafting == stage.Drafting?
      modifies this`open, this`todo, this`stage, dir
      ensures Valid() && Stepped(old(State()), GiveUp(left))
      ensures todo == [] && this.stage == Fresh && open == !booting
      ensures dir.slots == if drafting && !left then old(dir.slots)[d := old(dir.slots)[d].(draft := None)] else old(dir.slots)
    {
      hide Inv, Do;
      GiveUpDoes(h, dayOf, State(), left);
      if drafting && !left {
        dir.slots := dir.slots[d := dir.slots[d].(draft := None)];
      }
      todo, this.stage, open := [], Fresh, !booting;
    }

    /** An error when the plain file is gone already: nothing is left to undo, and the compressing ends all the same. */
    method FailBehind() returns (ghost trace: seq<Step>)
      requires Valid() && open && stage == Fresh
      modifies this`open, this`todo
      ensures Valid() && Took(old(State()), trace)
      ensures todo == [] && open == !booting
    {
      hide Inv, Do, Legal, After;
      ghost var w := State();
      if todo != [] {
        DayIsThere(h, dayOf, w);
        GiveUpDoes(h, dayOf, w, true);
        RunOfOne(h, dayOf, w, GiveUp(true));
        trace := [GiveUp(true)];
      } else if booting {
        CrashDoes(h, dayOf, w);
        RunOfOne(h, dayOf, w, Crash);
        trace := [Crash];
      } else {
        RunOfNone(h, dayOf, w);
        trace := [];
      }
      todo, open := [], !booting;
    }

    /** Compresses one day through a temporary and a rename, and removes the plain file last. */
    method CompressFile(d: nat, fault: Fault) returns (ok: bool, ghost trace: seq<Step>)
      requires At(d, Fresh)
      modifies this`open, this`todo, this`stage, dir
      ensures Valid() && Took(old(State()), trace)
      ensures ok == fault.Clean?
      ensures ok ==> open && todo == old(todo)[1..] && stage == Fresh
      ensures dir.slots == old(dir.slots)[d := Left(old(dir.slots)[d], fault)]
      ensures !ok ==> todo == [] && stage == Fresh && open == !booting
    {
      hide Inv, Do, Legal, After, Enabled, Admissible, State;
      ghost var w := State();
      ghost var slots := dir.slots;
      var plain := dir.slots[d].plain.value;
      var n := if fault.FailsDraft? && fault.n < |plain| then fault.n else |plain|;
      WriteDraft(d, n);
      RunOfOne(h, dayOf, w, Draft(n));
      trace := [Draft(n)];
      assert plain[..|plain|] == plain;
      if fault.FailsDraft? {
        Fail(d, Drafting(n), true, fault.left);
        RunMore(h, dayOf, w, trace, GiveUp(fault.left));
        assert dir.slots == slots[d := Left(slots[d], fault)];
        return false, trace + [GiveUp(fault.left)];
      }
      RenameDraft(d);
      RunMore(h, dayOf, w, trace, Rename);
      trace := trace + [Rename];
      if fault.FailsRemove? {
        Fail(d, Renamed, false, false);
        RunMore(h, dayOf, w, trace, GiveUp(false));
        return false, trace + [GiveUp(false)];
      }
      RemovePlain(d);
      RunMore(h, dayOf, w, trace, Remove);
      trace := trace + [Remove];
      if fault.FailsLastSync? {
        ghost var more := FailBehind();
        RunsJoin(h, dayOf, w, trace, more);
        return false, trace + more;
      }
      ok := true;
    }

    /** Compresses every plain file but the newest two, oldest first, until one fails. */
    method CompressOlderThan(faults: nat -> Fault) returns (ok: bool, ghost trace: seq<Step>)
      requires Valid() && open && todo == OldDays(dir.slots) && stage == Fresh
      modifies this`open, this`todo, this`stage, dir
      ensures Valid() && Took(old(State()), trace)
      ensures todo == [] && stage == Fresh
      ensures ok ==> open && Compressed(old(dir.slots), dir.slots, OldDays(old(dir.slots)))
      ensures !ok ==> open == !booting
    {
      hide Inv, Do, Legal, After, State, OldDays, Valid;
      var days := OldDays(dir.slots);
      ghost var w := State();
      ghost var before := dir.slots;
      trace := [];
      assert days[..0] == [];
      RunOfNone(h, dayOf, w);
      for i := 0 to |days|
        invariant Valid() && open && todo == days[i..] && stage == Fresh
        invariant Took(w, trace)
        invariant Compressed(before, dir.slots, days[..i])
      {
        NextDay();
        ghost var w0 := State();
        ghost var slots := dir.slots;
        ghost var more;
        ok, more := CompressFile(days[i], faults(days[i]));
        RunsJoin(h, dayOf, w, trace, more);
        trace := trace + more;
        if !ok {
          return false, trace;
        }
        CompressedMore(before, slots, days[..i], days[i]);
        assert days[..i + 1] == days[..i] + [days[i]];
      }
      assert days[..|days|] == days;
      ok := true;
    }

    lemma NextDay()
      requires Valid() && open && todo != [] && stage == Fresh
      ensures At(todo[0], Fresh)
    {
      DayIsThere(h, dayOf, State());
    }

    /** Makes sure appending goes to the day's file, turning the day over if it has to. */
    method OpenDay(now: nat, faults: nat -> Fault) returns (ghost trace: seq<Step>)
      requires Valid() && open && todo == [] && |dir.slots| <= now + 1
      modifies this`open, this`day, this`booting, this`todo, this`stage, dir
      ensures Valid() && Took(old(State()), trace)
      ensures open && day == now && todo == []
      ensures now == old(day) ==> dir.slots == old(dir.slots)
    {
      hide Inv, Do, Legal, After, OldDays, Opened;
      ghost var w := State();
      if day == now {
        trace := [];
        RunOfNone(h, dayOf, w);
        return;
      }
      RotateDoes(h, dayOf, w, now);
      dir.slots := Opened(dir.slots, now);
      day, booting, todo, stage := now, false, OldDays(dir.slots), Fresh;
      RunOfOne(h, dayOf, w, Rotate(now));
      trace := [Rotate(now)];
      ghost var more;
      var ok;
      ok, more := CompressOlderThan(faults);
      RunsJoin(h, dayOf, w, trace, more);
      trace := trace + more;
    }

    /** Starts: takes up the tail of the chain, opens the day's file, and finishes old compressions or refuses. */
    method Open(now: nat, faults: nat -> Fault) returns (ok: bool, ghost trace: seq<Step>)
      requires Valid() && !open && |dir.slots| <= now + 1
      modifies this, dir
      ensures Valid() && Took(old(State()), trace) && log == old(log)
      ensures ok == open && todo == []
      ensures ok ==> day == now && seqNo == |log| && lastHash == TailHash(log)
      ensures pending == map[]
    {
      hide Inv, Do, Legal, After, OldDays, Opened, ReadAll;
      ghost var w := State();
      BootDoes(h, dayOf, w, now);
      seqNo, lastHash := Resume();
      dir.slots := Opened(dir.slots, now);
      open, day, pending := true, now, map[];
      booting, todo, stage := true, OldDays(dir.slots), Fresh;
      RunOfOne(h, dayOf, w, Boot(now));
      trace := [Boot(now)];
      ghost var more;
      ok, more := CompressOlderThan(faults);
      RunsJoin(h, dayOf, w, trace, more);
      trace := trace + more;
    }

    /** Seals a record into the chain and writes it to the file of its day. */
    method AppendRecord(entry: Record, ts: string, faults: nat -> Fault) returns (rec: Record, ghost trace: seq<Step>)
      requires Valid() && open && todo == [] && |dir.slots| <= dayOf(ts) + 1
      modifies this`open, this`day, this`booting, this`seqNo, this`lastHash, this`log, this`todo, this`stage, dir
      ensures Valid() && Took(old(State()), trace)
      ensures open && todo == []
      ensures rec == Sealed(h, entry.(ts := ts), |old(log)| + 1, TailHash(old(log)))
      ensures log == old(log) + [rec] && seqNo == |log|
    {
      hide Inv, Do, Legal, After, Sealed, HashOf, ReadAll;
      ghost var w := State();
      trace := OpenDay(dayOf(ts), faults);
      ghost var w1 := State();
      var sealed := entry.(ts := ts);
      CurrentFileIsPlain(h, dayOf, w1);
      AppendDoes(h, dayOf, w1, sealed);
      rec := entry.(seqNo := seqNo + 1, ts := ts, prevHash := lastHash, session := ShortSession(entry.session));
      var hash := ComputeHash(h, rec);
      rec := rec.(hash := hash);
      SealedIs(h, sealed, seqNo + 1, lastHash);
      var slot := dir.slots[day];
      dir.slots := dir.slots[day := slot.(plain := Some(slot.plain.value + [rec]))];
      seqNo, lastHash := rec.seqNo, rec.hash;
      log := log + [rec];
      RunMore(h, dayOf, w, trace, Append(sealed));
      trace := trace + [Append(sealed)];
    }

    /**
     Records the intent of an action.  `stale` says of a time stamp whether it is too long ago for an
     outcome still to come.
     */
    method Attempt(entry: Record, ts: string, stale: string -> bool, faults: nat -> Fault)
      returns (number: nat, ghost trace: seq<Step>)
      requires Valid() && open && todo == [] && |dir.slots| <= dayOf(ts) + 1
      modifies this, dir
      ensures Valid() && Took(old(State()), trace) && open && todo == []
      ensures number == |old(log)| + 1 && |log| == number
      ensures log == old(log) + [Sealed(h, entry.(ts := ts, outcome := "attempt"), number, TailHash(old(log)))]
      ensures forall k :: k in pending <==> k == number || (k in old(pending) && !stale(old(pending)[k].ts))
      ensures pending[number] == log[number - 1]
      ensures forall k :: k in pending && k != number ==> pending[k] == old(pending)[k]
    {
      hide Inv, Do, Legal, After, Sealed, ReadAll;
      var rec;
      rec, trace := AppendRecord(entry.(outcome := "attempt"), ts, faults);
      pending := map k | k in pending && !stale(pending[k].ts) :: pending[k];
      number := rec.seqNo;
      pending := pending[number := rec];
    }

    /** Records the result of an attempt, once, with what identified the attempt and nothing of its parameters. */
    method Outcome(number: nat, outcome: string, cause: Option<string>, ts: string, faults: nat -> Fault)
      returns (ok: bool, ghost trace: seq<Step>)
      requires Valid() && open && todo == [] && |dir.slots| <= dayOf(ts) + 1
      modifies this, dir
      ensures Valid() && Took(old(State()), trace) && open && todo == []
      ensures ok == (number in old(pending))
      ensures pending == old(pending) - {number}
      ensures !ok ==> log == old(log) && dir.slots == old(dir.slots)
      ensures ok ==>
        log == old(log) + [Sealed(h, OutcomeOf(old(pending)[number], outcome, cause).(ts := ts),
                                  |old(log)| + 1, TailHash(old(log)))]
    {
      hide Inv, Do, Legal, After, Sealed, ReadAll;
      if number !in pending {
        RunOfNone(h, dayOf, State());
        return false, [];
      }
      var att := pending[number];
      pending := pending - {number};
      var rec;
      rec, trace := AppendRecord(OutcomeOf(att, outcome, cause), ts, faults);
      ok := true;
    }

    /** Recomputes the chain over the newest two day files; in an archive of its own writing it finds nothing. */
    method Verify(gone: nat -> bool) returns (v: Verdict, ghost n: nat)
      requires Valid()
      ensures v == Sound || v == Abandoned
      ensures var files := Chosen(dir.slots);
              v == Sound ==> Exact(h, DayFiles(dir.slots, if |files| <= 2 then files else files[|files| - 2..]), v, n)
      ensures (forall k :: !gone(k)) ==> v == Sound
    {
      hide Inv, Exact, Files, DayFiles, Chosen;
      var files := AllFiles();
      var k := if |files| > 2 then |files| - 2 else 0;
      assert k == 0 ==> files[k..] == files;
      ghost var lo := LastFilesAreDays(dir.slots, k);
      v, n := VerifyContext(h, DayFiles(dir.slots, files[k..]), gone);
      if v != Abandoned {
        assert dir.slots[lo..|dir.slots|] == dir.slots[lo..];
        VerdictIsSound(h, dayOf, State(), lo, |dir.slots|, v, n);
      }
    }

    /** The process ends, here or anywhere. */
    method Close() returns (ghost trace: seq<Step>)
      requires Valid() && open
      modifies this`open
      ensures Valid() && !open && Took(old(State()), trace)
    {
      hide Inv, Legal, After, Do;
      ghost var w := State();
      CrashDoes(h, dayOf, w);
      RunOfOne(h, dayOf, w, Crash);
      trace := [Crash];
      open := false;
    }
  }

  /** What the result of an attempt says: who and where as in the attempt, and why if it failed. */
  function OutcomeOf(att: Record, outcome: string, cause: Option<string>): (r: Record)
    ensures r == att.(outcome := outcome, params := r.params)
    ensures cause.None? ==> r.params == map[]
    ensures cause.Some? ==> r.params.Keys == {"error"}
    ensures cause.Some? ==> r.params["error"] == Str(cause.value) || r.params["error"] == Str("<redacted>")
  {
    att.(outcome := outcome, params := if cause.Some? then map["error" := Str(AuditRedact.OutcomeCause(cause.value))] else map[])
  }

  /** Of each of these days only the compressed file is left, with what the plain one held; no other day has changed. */
  ghost predicate Compressed(before: seq<Slot>, after: seq<Slot>, days: seq<nat>) {
    |after| == |before| &&
    forall d :: 0 <= d < |before| ==>
      after[d] == if d in days && before[d].plain.Some? then Slot(None, before[d].plain, None) else before[d]
  }

  lemma CompressedMore(before: seq<Slot>, slots: seq<Slot>, days: seq<nat>, d: nat)
    requires Compressed(before, slots, days) && d < |slots| && slots[d].plain.Some?
    ensures Compressed(before, slots[d := Slot(None, slots[d].plain, None)], days + [d])
  {
  }

  lemma RunOfNone(h: Hash, dayOf: string -> nat, w: World)
    ensures Legal(h, dayOf, w, []) && After(h, dayOf, w, []) == w
  {
  }

  lemma CrashDoes(h: Hash, dayOf: string -> nat, w: World)
    requires Inv(h, dayOf, w) && w.proc.Up?
    ensures Enabled(w, Crash) && Admissible(dayOf, w, Crash)
    ensures Do(h, w, Crash) == w.(proc := Down) && Inv(h, dayOf, Do(h, w, Crash))
  {
    hide Inv;
    StepKeeps(h, dayOf, w, Crash);
  }

  lemma BootDoes(h: Hash, dayOf: string -> nat, w: World, day: nat)
    requires Inv(h, dayOf, w) && w.proc.Down? && |w.disk| <= day + 1
    ensures Enabled(w, Boot(day)) && Admissible(dayOf, w, Boot(day))
    ensures ReadAll(w.disk) == w.log && TailSeq(w.log) == |w.log|
    ensures var disk := Opened(w.disk, day);
            Do(h, w, Boot(day)) ==
            w.(disk := disk, proc := Up(TailSeq(w.log), TailHash(w.log), day, true, OldDays(disk), Fresh))
    ensures Inv(h, dayOf, Do(h, w, Boot(day)))
  {
    TailIsCount(h, w.log);
    hide Tidy, FromGenesis, NewestPlain, Opened, OldDays, ReadAll;
    StepKeeps(h, dayOf, w, Boot(day));
  }

  lemma RotateDoes(h: Hash, dayOf: string -> nat, w: World, day: nat)
    requires Inv(h, dayOf, w) && Enabled(w, Rotate(day)) && |w.disk| <= day + 1
    ensures var disk := Opened(w.disk, day);
            Do(h, w, Rotate(day)) ==
            w.(disk := disk, proc := w.proc.(day := day, booting := false, todo := OldDays(disk), stage := Fresh))
    ensures Inv(h, dayOf, Do(h, w, Rotate(day)))
  {
    hide Inv, Opened, OldDays;
    StepKeeps(h, dayOf, w, Rotate(day));
  }

  lemma AppendDoes(h: Hash, dayOf: string -> nat, w: World, entry: Record)
    requires Inv(h, dayOf, w) && Enabled(w, Append(entry)) && dayOf(entry.ts) == w.proc.day
    ensures w.proc.seqNo == |w.log| && w.proc.lastHash == TailHash(w.log)
    ensures var rec := Sealed(h, entry, w.proc.seqNo + 1, w.proc.lastHash);
            var slot := w.disk[w.proc.day];
            Do(h, w, Append(entry)) ==
            World(w.disk[w.proc.day := slot.(plain := Some(slot.plain.value + [rec]))],
                  w.proc.(seqNo := rec.seqNo, lastHash := rec.hash), w.log + [rec])
    ensures Inv(h, dayOf, Do(h, w, Append(entry)))
  {
    hide Sealed, Tidy, FromGenesis, NewestPlain, ReadAll;
    StepKeeps(h, dayOf, w, Append(entry));
  }

  lemma SealedIs(h: Hash, entry: Record, seqNo: nat, prevHash: string)
    ensures var open := entry.(seqNo := seqNo, prevHash := prevHash, session := ShortSession(entry.session));
            Sealed(h, entry, seqNo, prevHash) == open.(hash := HashOf(h, open))
  {
    hide HashOf;
  }

  /* What each step of a compression does to the directory. */

  lemma DayIsThere(h: Hash, dayOf: string -> nat, w: World)
    requires Inv(h, dayOf, w) && w.proc.Up? && w.proc.todo != []
    ensures Busy(w) && w.proc.todo[0] < |w.disk| && w.disk[w.proc.todo[0]].plain.Some?
  {
    hide ReadAll, FromGenesis, Tidy;
  }

  lemma DraftDoes(h: Hash, dayOf: string -> nat, w: World, n: nat)
    requires Inv(h, dayOf, w) && Enabled(w, Draft(n))
    ensures var s := w.disk[w.proc.todo[0]];
            Do(h, w, Draft(n)) == w.(disk := w.disk[w.proc.todo[0] := s.(draft := Some(s.plain.value[..n]))],
                                     proc := w.proc.(stage := Drafting(n)))
    ensures Inv(h, dayOf, Do(h, w, Draft(n)))
  {
    hide Inv;
    StepKeeps(h, dayOf, w, Draft(n));
  }

  lemma RenameDoes(h: Hash, dayOf: string -> nat, w: World)
    requires Inv(h, dayOf, w) && Enabled(w, Rename)
    ensures var s := w.disk[w.proc.todo[0]];
            Do(h, w, Rename) == w.(disk := w.disk[w.proc.todo[0] := s.(packed := s.draft, draft := None)],
                                   proc := w.proc.(stage := Renamed))
    ensures Inv(h, dayOf, Do(h, w, Rename))
  {
    hide Inv;
    StepKeeps(h, dayOf, w, Rename);
  }

  lemma RemoveDoes(h: Hash, dayOf: string -> nat, w: World)
    requires Inv(h, dayOf, w) && Enabled(w, Remove)
    ensures var s := w.disk[w.proc.todo[0]];
            Do(h, w, Remove) == w.(disk := w.disk[w.proc.todo[0] := s.(plain := None)],
                                   proc := w.proc.(todo := w.proc.todo[1..], stage := Fresh))
    ensures Inv(h, dayOf, Do(h, w, Remove))
  {
    hide Inv;
    StepKeeps(h, dayOf, w, Remove);
  }

  lemma GiveUpDoes(h: Hash, dayOf: string -> nat, w: World, left: bool)
    requires Inv(h, dayOf, w) && Enabled(w, GiveUp(left))
    ensures var s := w.disk[w.proc.todo[0]];
            var disk := if w.proc.stage.Drafting? && !left then w.disk[w.proc.todo[0] := s.(draft := None)] else w.disk;
            Do(h, w, GiveUp(left)) ==
            w.(disk := disk, proc := if w.proc.booting then Down else w.proc.(todo := [], stage := Fresh))
    ensures Inv(h, dayOf, Do(h, w, GiveUp(left)))
  {
    hide Inv;
    StepKeeps(h, dayOf, w, GiveUp(left));
  }
}
