/**
 The audit archive as it is written: one file a day, older days compressed in small steps any of which
 may be the last, restarts, and the chain of records across all of it.

 A directory is a sequence of slots, one per day; day d has no file when its slot is empty or d lies
 beyond the sequence.  Compression is an opaque inverse pair, so a compressed file is known by the
 records it gives back.
 */
module AuditArchive {
  import opened Wrappers
  import opened AuditRecord
  import opened AuditChain

  /** The three files a day can have: audit-D.jsonl, audit-D.jsonl.gz and the temporary of a compression. */
  datatype Slot = Slot(plain: Option<seq<Record>>, packed: Option<seq<Record>>, draft: Option<seq<Record>>)

  const EMPTY := Slot(None, None, None)

  /** How many of the most recent plain files stay uncompressed. */
  const KEEP_PLAIN := 2

  /** What is read for a day: the compressed file where there are both. */
  function Content(s: Slot): seq<Record> {
    match s.packed
    case Some(recs) => recs
    case None => if s.plain.Some? then s.plain.value else []
  }

  /** Every record of the archive in the order of the days. */
  function ReadAll(disk: seq<Slot>): seq<Record> {
    if disk == [] then [] else ReadAll(disk[..|disk| - 1]) + Content(disk[|disk| - 1])
  }

  /** The days with a plain file, oldest first. */
  function PlainDays(disk: seq<Slot>): seq<nat> {
    if disk == [] then []
    else PlainDays(disk[..|disk| - 1]) + if disk[|disk| - 1].plain.Some? then [|disk| - 1] else []
  }

  /** The days whose plain files are due for compression. */
  function OldDays(disk: seq<Slot>): seq<nat> {
    var plain := PlainDays(disk);
    if |plain| <= KEEP_PLAIN then [] else plain[..|plain| - KEEP_PLAIN]
  }

  function Extended(disk: seq<Slot>, day: nat): (r: seq<Slot>)
    ensures day < |r|
  {
    if day < |disk| then disk else disk + seq(day + 1 - |disk|, i => EMPTY)
  }

  /** Opening a day's plain file for appending creates it when it is not there. */
  function Opened(disk: seq<Slot>, day: nat): seq<Slot> {
    var wide := Extended(disk, day);
    if wide[day].plain.Some? then wide else wide[day := wide[day].(plain := Some([]))]
  }

  /* The process. */

  /** How far the compression of the first day of a list has come. */
  datatype Stage = Fresh | Drafting(n: nat) | Renamed

  datatype Proc =
    | Down
    | Up(seqNo: nat, lastHash: string, day: nat, booting: bool, todo: seq<nat>, stage: Stage)

  /** log is every record ever appended, in order: the reference the archive is held to. */
  datatype World = World(disk: seq<Slot>, proc: Proc, log: seq<Record>)

  datatype Step =
    | Boot(day: nat)
    | Rotate(day: nat)
    | Append(entry: Record)
    | Draft(n: nat)
    | Rename
    | Remove
    | GiveUp(left: bool)
    | Crash

  /** A session token is cut to its first eight characters. */
  function ShortSession(token: string): (r: string)
    ensures |token| <= 8 ==> r == token
    ensures |token| > 8 ==> |r| == 9 && r[..8] == token[..8] && r[8] == '…'
  {
    if |token| <= 8 then token else token[..8] + "…"
  }

  ghost function Sealed(h: Hash, entry: Record, seqNo: nat, prevHash: string): (r: Record)
    ensures r.seqNo == seqNo && r.prevHash == prevHash && r.hash == HashOf(h, r)
    ensures r.ts == entry.ts && |r.session| <= 9
  {
    hide Canonical;
    var open := entry.(seqNo := seqNo, prevHash := prevHash, session := ShortSession(entry.session));
    Unhashed(open, HashOf(h, open));
    open.(hash := HashOf(h, open))
  }

  /** Sealing changes the number, the two hashes and the session, which is cut, and nothing else of what was asked to be recorded. */
  lemma SealedIsEntry(h: Hash, entry: Record, seqNo: nat, prevHash: string)
    ensures var r := Sealed(h, entry, seqNo, prevHash);
            r == entry.(seqNo := seqNo, prevHash := prevHash, session := ShortSession(entry.session), hash := r.hash)
  {
    hide Canonical;
  }

  lemma Unhashed(r: Record, hash: string)
    ensures Canonical(r.(hash := hash)) == Canonical(r)
  {
    assert CanonicalFields(r.(hash := hash)) == CanonicalFields(r);
  }

  function TailSeq(recs: seq<Record>): nat {
    if recs == [] then 0 else recs[|recs| - 1].seqNo
  }

  function TailHash(recs: seq<Record>): string {
    if recs == [] then GENESIS else recs[|recs| - 1].hash
  }

  /** What the program's order of statements lets happen next. */
  ghost predicate Enabled(w: World, s: Step) {
    match s
    case Boot(day) => w.proc.Down?
    case Rotate(day) => w.proc.Up? && w.proc.todo == [] && day != w.proc.day
    case Append(entry) =>
      w.proc.Up? && w.proc.todo == [] && w.proc.day < |w.disk| && w.disk[w.proc.day].plain.Some?
    case Draft(n) =>
      Busy(w) && n <= |Work(w).plain.value| &&
      (w.proc.stage == Fresh || (w.proc.stage.Drafting? && w.proc.stage.n <= n))
    case Rename => Busy(w) && w.proc.stage == Drafting(|Work(w).plain.value|) && Work(w).draft.Some?
    case Remove => Busy(w) && w.proc.stage == Renamed
    case GiveUp(left) => Busy(w)
    case Crash => w.proc.Up?
  }

  /** A compression is under way. */
  ghost predicate Busy(w: World) {
    w.proc.Up? && w.proc.todo != [] && w.proc.todo[0] < |w.disk| && w.disk[w.proc.todo[0]].plain.Some?
  }

  ghost function Work(w: World): (s: Slot)
    requires Busy(w)
    ensures s.plain.Some?
  {
    w.disk[w.proc.todo[0]]
  }

  ghost function Reslot(w: World, s: Slot): seq<Slot>
    requires Busy(w)
  {
    w.disk[w.proc.todo[0] := s]
  }

  ghost function Do(h: Hash, w: World, s: Step): World
    requires Enabled(w, s)
  {
    match s
    case Boot(day) =>
      var recs := ReadAll(w.disk);
      var disk := Opened(w.disk, day);
      w.(disk := disk, proc := Up(TailSeq(recs), TailHash(recs), day, true, OldDays(disk), Fresh))
    case Rotate(day) =>
      var disk := Opened(w.disk, day);
      w.(disk := disk, proc := w.proc.(day := day, booting := false, todo := OldDays(disk), stage := Fresh))
    case Append(entry) =>
      var rec := Sealed(h, entry, w.proc.seqNo + 1, w.proc.lastHash);
      var slot := w.disk[w.proc.day];
      World(w.disk[w.proc.day := slot.(plain := Some(slot.plain.value + [rec]))],
            w.proc.(seqNo := rec.seqNo, lastHash := rec.hash), w.log + [rec])
    case Draft(n) =>
      w.(disk := Reslot(w, Work(w).(draft := Some(Work(w).plain.value[..n]))), proc := w.proc.(stage := Drafting(n)))
    case Rename =>
      w.(disk := Reslot(w, Work(w).(packed := Work(w).draft, draft := None)), proc := w.proc.(stage := Renamed))
    case Remove =>
      w.(disk := Reslot(w, Work(w).(plain := None)), proc := w.proc.(todo := w.proc.todo[1..], stage := Fresh))
    case GiveUp(left) =>
      var disk := if w.proc.stage.Drafting? && !left then Reslot(w, Work(w).(draft := None)) else w.disk;
      w.(disk := disk, proc := if w.proc.booting then Down else w.proc.(todo := [], stage := Fresh))
    case Crash => w.(proc := Down)
  }

  /** What is asked of the world outside: days never go back, and a record is written on its own day. */
  ghost predicate Admissible(dayOf: string -> nat, w: World, s: Step) {
    match s
    case Boot(day) => |w.disk| <= day + 1
    case Rotate(day) => |w.disk| <= day + 1
    case Append(entry) => w.proc.Up? && dayOf(entry.ts) == w.proc.day
    case _ => true
  }

  /* What every state of a run keeps. */

  /** Numbers 1, 2, 3, ... and one chain from the anchor. */
  ghost predicate FromGenesis(h: Hash, log: seq<Record>) {
    forall i :: 0 <= i < |log| ==> Follows(h, log, i)
  }

  ghost predicate Follows(h: Hash, log: seq<Record>, i: nat)
    requires i < |log|
  {
    log[i].seqNo == i + 1 && log[i].hash == HashOf(h, log[i]) && |log[i].session| <= 9 &&
    log[i].prevHash == if i == 0 then GENESIS else log[i - 1].hash
  }

  /** A day with both files has the same records in both, and every record lies in the file of its day. */
  ghost predicate Tidy(dayOf: string -> nat, disk: seq<Slot>) {
    forall d :: 0 <= d < |disk| ==> TidySlot(dayOf, disk[d], d)
  }

  ghost predicate TidySlot(dayOf: string -> nat, s: Slot, d: nat) {
    (s.plain.Some? && s.packed.Some? ==> s.plain.value == s.packed.value) &&
    forall r :: r in Content(s) ==> dayOf(r.ts) == d
  }

  /** The newest day is never compressed. */
  ghost predicate NewestPlain(disk: seq<Slot>) {
    disk != [] ==> disk[|disk| - 1].packed == None
  }

  ghost predicate Running(w: World) {
    w.proc.Up? ==>
      w.proc.day + 1 == |w.disk| && w.disk[w.proc.day].plain.Some? &&
      w.proc.seqNo == |w.log| && w.proc.lastHash == TailHash(w.log)
  }

  /** Days waiting for compression have a plain file and are older than the newest. */
  ghost predicate Waiting(disk: seq<Slot>, todo: seq<nat>) {
    forall i :: 0 <= i < |todo| ==>
      todo[i] < |disk| - 1 && disk[todo[i]].plain.Some? && forall j :: 0 <= j < i ==> todo[j] < todo[i]
  }

  ghost predicate Working(w: World) {
    w.proc.Up? ==>
      Waiting(w.disk, w.proc.todo) &&
      (w.proc.todo == [] ==> w.proc.stage == Fresh) &&
      (w.proc.todo != [] ==>
        var s := w.disk[w.proc.todo[0]];
        (w.proc.stage.Drafting? ==>
          w.proc.stage.n <= |s.plain.value| && s.draft == Some(s.plain.value[..w.proc.stage.n])) &&
        (w.proc.stage == Renamed ==> s.packed.Some?))
  }

  ghost predicate Inv(h: Hash, dayOf: string -> nat, w: World) {
    ReadAll(w.disk) == w.log && FromGenesis(h, w.log) && Tidy(dayOf, w.disk) && NewestPlain(w.disk) &&
    Running(w) && Working(w)
  }

  /* Reading after a change of one slot. */

  lemma {:induction false} ReadAllConcat(a: seq<Slot>, b: seq<Slot>)
    ensures ReadAll(a + b) == ReadAll(a) + ReadAll(b)
  {
    if b == [] {
      assert a + b == a;
    } else {
      var init := b[..|b| - 1];
      assert (a + b)[..|a + b| - 1] == a + init;
      ReadAllConcat(a, init);
      Associate(ReadAll(a), ReadAll(init), Content(b[|b| - 1]));
    }
  }

  lemma Associate(a: seq<Record>, b: seq<Record>, c: seq<Record>)
    ensures (a + b) + c == a + (b + c)
  {
  }

  lemma ReadAllOne(s: Slot)
    ensures ReadAll([s]) == Content(s)
  {
    assert [s][..0] == [];
    assert ReadAll([]) == [];
  }

  /** Replacing the file of a day by one that reads the same changes nothing that is read. */
  lemma SameContent(disk: seq<Slot>, d: nat, s: Slot)
    requires d < |disk| && Content(s) == Content(disk[d])
    ensures ReadAll(disk[d := s]) == ReadAll(disk)
  {
    hide ReadAll;
    assert disk == disk[..d] + ([disk[d]] + disk[d + 1..]);
    assert disk[d := s] == disk[..d] + ([s] + disk[d + 1..]);
    ReadAllOne(s);
    ReadAllOne(disk[d]);
    ReadAllConcat([s], disk[d + 1..]);
    ReadAllConcat([disk[d]], disk[d + 1..]);
    ReadAllConcat(disk[..d], [s] + disk[d + 1..]);
    ReadAllConcat(disk[..d], [disk[d]] + disk[d + 1..]);
  }

  lemma LastContent(disk: seq<Slot>, s: Slot)
    requires disk != [] && Content(disk[|disk| - 1]) <= Content(s)
    ensures ReadAll(disk[|disk| - 1 := s]) == ReadAll(disk) + Content(s)[|Content(disk[|disk| - 1])|..]
  {
    hide Content;
    assert disk[|disk| - 1 := s][..|disk| - 1] == disk[..|disk| - 1];
  }

  lemma {:induction false} ReadAllEmpty(n: nat)
    ensures ReadAll(seq(n, i => EMPTY)) == []
  {
    var empties := seq(n, i => EMPTY);
    if n > 0 {
      assert empties[..n - 1] == seq(n - 1, i => EMPTY);
      ReadAllEmpty(n - 1);
    }
  }

  lemma OpenedReads(disk: seq<Slot>, day: nat)
    ensures ReadAll(Opened(disk, day)) == ReadAll(disk)
  {
    hide ReadAll;
    var wide := Extended(disk, day);
    if |disk| <= day {
      ReadAllEmpty(day + 1 - |disk|);
      ReadAllConcat(disk, seq(day + 1 - |disk|, i => EMPTY));
    }
    assert ReadAll(wide) == ReadAll(disk);
    if wide[day].plain.None? {
      SameContent(wide, day, wide[day].(plain := Some([])));
    }
  }

  /* The days due for compression. */

  lemma {:induction false} PlainDaysAre(disk: seq<Slot>)
    ensures forall i :: 0 <= i < |PlainDays(disk)| ==>
      PlainDays(disk)[i] < |disk| && disk[PlainDays(disk)[i]].plain.Some?
    ensures forall i, j :: 0 <= j < i < |PlainDays(disk)| ==> PlainDays(disk)[j] < PlainDays(disk)[i]
  {
    if disk != [] {
      PlainDaysAre(disk[..|disk| - 1]);
    }
  }

  /** Due are the days with a plain file that have at least two plain files after them. */
  lemma OldDaysExact(disk: seq<Slot>, d: nat)
    ensures d in OldDays(disk) <==>
            d in PlainDays(disk) && exists a, b :: a in PlainDays(disk) && b in PlainDays(disk) && d < a < b
  {
    PlainDaysAre(disk);
    hide PlainDays;
    var plain := PlainDays(disk);
    if d in OldDays(disk) {
      TwoAfter(plain, d);
    }
    if a, b :| d in plain && a in plain && b in plain && d < a < b {
      NotLastTwo(plain, d, a, b);
    }
  }

  ghost predicate Ascending(s: seq<nat>) {
    forall i, j :: 0 <= j < i < |s| ==> s[j] < s[i]
  }

  lemma TwoAfter(s: seq<nat>, d: nat)
    requires Ascending(s) && |s| > KEEP_PLAIN && d in s[..|s| - KEEP_PLAIN]
    ensures d in s && exists a, b :: a in s && b in s && d < a < b
  {
    var i :| 0 <= i < |s| - KEEP_PLAIN && s[i] == d;
    assert s[i + 1] in s && s[i + 2] in s && d < s[i + 1] < s[i + 2];
  }

  lemma NotLastTwo(s: seq<nat>, d: nat, a: nat, b: nat)
    requires Ascending(s) && d in s && a in s && b in s && d < a < b
    ensures |s| > KEEP_PLAIN && d in s[..|s| - KEEP_PLAIN]
  {
    var i :| 0 <= i < |s| && s[i] == d;
    var j :| 0 <= j < |s| && s[j] == a;
    var k :| 0 <= k < |s| && s[k] == b;
    Before(s, i, j);
    Before(s, j, k);
    assert s[..|s| - KEEP_PLAIN][i] == d;
  }

  lemma Before(s: seq<nat>, i: nat, j: nat)
    requires Ascending(s) && i < |s| && j < |s| && s[i] < s[j]
    ensures i < j
  {
  }

  lemma OldDaysWait(disk: seq<Slot>)
    requires disk != [] && disk[|disk| - 1].plain.Some?
    ensures Waiting(disk, OldDays(disk))
  {
    PlainDaysAre(disk);
    var plain := PlainDays(disk);
    assert plain[|plain| - 1] == |disk| - 1;
  }

  /* One step at a time. */

  /** A day's slot replaced by one that reads the same and keeps its two files alike. */
  lemma KeepSlot(dayOf: string -> nat, disk: seq<Slot>, d: nat, s: Slot)
    requires d < |disk| - 1 && Tidy(dayOf, disk) && NewestPlain(disk)
    requires Content(s) == Content(disk[d])
    requires s.plain.Some? && s.packed.Some? ==> s.plain.value == s.packed.value
    ensures ReadAll(disk[d := s]) == ReadAll(disk)
    ensures Tidy(dayOf, disk[d := s]) && NewestPlain(disk[d := s])
  {
    hide ReadAll, Content;
    SameContent(disk, d, s);
    assert TidySlot(dayOf, disk[d], d);
  }

  lemma KeepWaiting(disk: seq<Slot>, todo: seq<nat>, s: Slot)
    requires Waiting(disk, todo) && todo != []
    ensures todo[0] < |disk|
    ensures s.plain.Some? ==> Waiting(disk[todo[0] := s], todo)
    ensures Waiting(disk[todo[0] := s], todo[1..])
  {
    forall i | 0 < i < |todo|
      ensures todo[0] < todo[i]
    {
    }
  }

  lemma OpenedKeeps(dayOf: string -> nat, disk: seq<Slot>, day: nat)
    requires Tidy(dayOf, disk) && NewestPlain(disk) && |disk| <= day + 1
    ensures var r := Opened(disk, day);
            |r| == day + 1 && Tidy(dayOf, r) && NewestPlain(r) && r[day].plain.Some? && ReadAll(r) == ReadAll(disk)
  {
    hide ReadAll;
    OpenedReads(disk, day);
    var wide := Extended(disk, day);
    forall d | 0 <= d < |wide|
      ensures TidySlot(dayOf, wide[d], d)
    {
      if d < |disk| {
        assert TidySlot(dayOf, disk[d], d);
      }
    }
    assert TidySlot(dayOf, wide[day], day);
  }

  lemma BootKeeps(h: Hash, dayOf: string -> nat, w: World, day: nat)
    requires Inv(h, dayOf, w) && Enabled(w, Boot(day)) && Admissible(dayOf, w, Boot(day))
    ensures Inv(h, dayOf, Do(h, w, Boot(day)))
  {
    hide ReadAll, FromGenesis, Tidy, NewestPlain, Waiting, OldDays, Opened;
    OpenedKeeps(dayOf, w.disk, day);
    OldDaysWait(Opened(w.disk, day));
    TailIsCount(h, w.log);
  }

  lemma TailIsCount(h: Hash, log: seq<Record>)
    requires FromGenesis(h, log)
    ensures TailSeq(log) == |log|
  {
    hide HashOf;
    if log != [] {
      assert Follows(h, log, |log| - 1);
    }
  }

  lemma RotateKeeps(h: Hash, dayOf: string -> nat, w: World, day: nat)
    requires Inv(h, dayOf, w) && Enabled(w, Rotate(day)) && Admissible(dayOf, w, Rotate(day))
    ensures Inv(h, dayOf, Do(h, w, Rotate(day)))
  {
    hide ReadAll, FromGenesis, Tidy, NewestPlain, Waiting, OldDays, Opened;
    OpenedKeeps(dayOf, w.disk, day);
    OldDaysWait(Opened(w.disk, day));
  }

  lemma ChainGrows(h: Hash, log: seq<Record>, entry: Record)
    requires FromGenesis(h, log)
    ensures FromGenesis(h, log + [Sealed(h, entry, |log| + 1, TailHash(log))])
  {
    hide HashOf;
    var rec := Sealed(h, entry, |log| + 1, TailHash(log));
    hide Sealed;
    var more := log + [rec];
    forall i | 0 <= i < |more|
      ensures Follows(h, more, i)
    {
      if i < |log| {
        assert Follows(h, log, i);
      }
    }
  }

  lemma AppendReads(dayOf: string -> nat, disk: seq<Slot>, rec: Record)
    requires disk != [] && Tidy(dayOf, disk) && NewestPlain(disk) && disk[|disk| - 1].plain.Some?
    requires dayOf(rec.ts) == |disk| - 1
    ensures var last := |disk| - 1;
            var r := disk[last := disk[last].(plain := Some(disk[last].plain.value + [rec]))];
            ReadAll(r) == ReadAll(disk) + [rec] && Tidy(dayOf, r) && NewestPlain(r)
  {
    hide ReadAll;
    var last := |disk| - 1;
    var slot := disk[last];
    var recs := slot.plain.value + [rec];
    var s := slot.(plain := Some(recs));
    assert Content(slot) == slot.plain.value && Content(s) == recs;
    LastContent(disk, s);
    assert recs[|slot.plain.value|..] == [rec];
    assert TidySlot(dayOf, slot, last);
    assert TidySlot(dayOf, s, last);
  }

  lemma AppendKeeps(h: Hash, dayOf: string -> nat, w: World, entry: Record)
    requires Inv(h, dayOf, w) && Enabled(w, Append(entry)) && Admissible(dayOf, w, Append(entry))
    ensures Inv(h, dayOf, Do(h, w, Append(entry)))
  {
    ChainGrows(h, w.log, entry);
    hide ReadAll, FromGenesis, Sealed, HashOf, Tidy, NewestPlain;
    AppendReads(dayOf, w.disk, Sealed(h, entry, w.proc.seqNo + 1, w.proc.lastHash));
  }

  lemma DraftKeeps(h: Hash, dayOf: string -> nat, w: World, n: nat)
    requires Inv(h, dayOf, w) && Enabled(w, Draft(n))
    ensures Inv(h, dayOf, Do(h, w, Draft(n)))
  {
    hide ReadAll, FromGenesis, Tidy, NewestPlain;
    var d := w.proc.todo[0];
    var s := Work(w).(draft := Some(Work(w).plain.value[..n]));
    TidyAt(dayOf, w.disk, d);
    KeepSlot(dayOf, w.disk, d, s);
    KeepWaiting(w.disk, w.proc.todo, s);
    hide Waiting;
  }

  lemma TidyAt(dayOf: string -> nat, disk: seq<Slot>, d: nat)
    requires Tidy(dayOf, disk) && d < |disk|
    ensures disk[d].plain.Some? && disk[d].packed.Some? ==> disk[d].plain.value == disk[d].packed.value
  {
    assert TidySlot(dayOf, disk[d], d);
  }

  lemma RenameKeeps(h: Hash, dayOf: string -> nat, w: World)
    requires Inv(h, dayOf, w) && Enabled(w, Rename)
    ensures Inv(h, dayOf, Do(h, w, Rename))
  {
    hide ReadAll, FromGenesis, Tidy, NewestPlain;
    var d := w.proc.todo[0];
    var plain := Work(w).plain.value;
    assert plain[..|plain|] == plain;
    var s := Work(w).(packed := Work(w).draft, draft := None);
    TidyAt(dayOf, w.disk, d);
    KeepSlot(dayOf, w.disk, d, s);
    KeepWaiting(w.disk, w.proc.todo, s);
    hide Waiting;
  }

  lemma RemoveKeeps(h: Hash, dayOf: string -> nat, w: World)
    requires Inv(h, dayOf, w) && Enabled(w, Remove)
    ensures Inv(h, dayOf, Do(h, w, Remove))
  {
    hide ReadAll, FromGenesis, Tidy, NewestPlain;
    var d := w.proc.todo[0];
    var s := Work(w).(plain := None);
    KeepSlot(dayOf, w.disk, d, s);
    KeepWaiting(w.disk, w.proc.todo, s);
    hide Waiting;
  }

  lemma GiveUpKeeps(h: Hash, dayOf: string -> nat, w: World, left: bool)
    requires Inv(h, dayOf, w) && Enabled(w, GiveUp(left))
    ensures Inv(h, dayOf, Do(h, w, GiveUp(left)))
  {
    hide ReadAll, FromGenesis, Tidy, NewestPlain;
    var d := w.proc.todo[0];
    var s := Work(w).(draft := None);
    TidyAt(dayOf, w.disk, d);
    KeepSlot(dayOf, w.disk, d, s);
  }

  lemma StepKeeps(h: Hash, dayOf: string -> nat, w: World, s: Step)
    requires Inv(h, dayOf, w) && Enabled(w, s) && Admissible(dayOf, w, s)
    ensures Inv(h, dayOf, Do(h, w, s))
  {
    match s
    case Boot(day) => hide *; BootKeeps(h, dayOf, w, day);
    case Rotate(day) => hide *; RotateKeeps(h, dayOf, w, day);
    case Append(entry) => hide *; AppendKeeps(h, dayOf, w, entry);
    case Draft(n) => hide *; DraftKeeps(h, dayOf, w, n);
    case Rename => hide *; RenameKeeps(h, dayOf, w);
    case Remove => hide *; RemoveKeeps(h, dayOf, w);
    case GiveUp(left) => hide *; GiveUpKeeps(h, dayOf, w, left);
    case Crash => hide ReadAll, FromGenesis, Tidy, NewestPlain;
  }
}
