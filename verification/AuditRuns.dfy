/**
 Whole runs of the archive: appends, day changes, compressions, crashes between any two steps, restarts.
 */
module AuditRuns {
  import opened Wrappers
  import opened AuditRecord
  import opened AuditChain
  import opened AuditArchive

  /** Steps that can follow one another. */
  ghost predicate Legal(h: Hash, dayOf: string -> nat, w: World, steps: seq<Step>)
    decreases |steps|
  {
    steps == [] ||
    (Enabled(w, steps[0]) && Admissible(dayOf, w, steps[0]) && Legal(h, dayOf, Do(h, w, steps[0]), steps[1..]))
  }

  ghost function After(h: Hash, dayOf: string -> nat, w: World, steps: seq<Step>): World
    requires Legal(h, dayOf, w, steps)
    decreases |steps|
  {
    if steps == [] then w else After(h, dayOf, Do(h, w, steps[0]), steps[1..])
  }

  /** The records asked for, in the order they were asked for. */
  function Entries(steps: seq<Step>): seq<Record> {
    if steps == [] then []
    else (if steps[0].Append? then [steps[0].entry] else []) + Entries(steps[1..])
  }

  /** One file that is never rotated, compressed or interrupted. */
  ghost function SealAll(h: Hash, log: seq<Record>, entries: seq<Record>): seq<Record>
    decreases |entries|
  {
    if entries == [] then log
    else SealAll(h, log + [Sealed(h, entries[0], |log| + 1, TailHash(log))], entries[1..])
  }

  /** One run after another. */
  lemma {:induction false} RunsJoin(h: Hash, dayOf: string -> nat, w: World, a: seq<Step>, b: seq<Step>)
    requires Legal(h, dayOf, w, a) && Legal(h, dayOf, After(h, dayOf, w, a), b)
    ensures Legal(h, dayOf, w, a + b)
    ensures After(h, dayOf, w, a + b) == After(h, dayOf, After(h, dayOf, w, a), b)
    decreases |a|
  {
    hide Do, Enabled, Admissible;
    if a == [] {
      assert a + b == b;
    } else {
      assert (a + b)[1..] == a[1..] + b;
      RunsJoin(h, dayOf, Do(h, w, a[0]), a[1..], b);
    }
  }

  lemma RunOfOne(h: Hash, dayOf: string -> nat, w: World, s: Step)
    requires Enabled(w, s) && Admissible(dayOf, w, s)
    ensures Legal(h, dayOf, w, [s]) && After(h, dayOf, w, [s]) == Do(h, w, s)
  {
    hide Do, Enabled, Admissible;
    assert [s][1..] == [];
  }

  /** A run and one step more. */
  lemma RunMore(h: Hash, dayOf: string -> nat, w: World, a: seq<Step>, s: Step)
    requires Legal(h, dayOf, w, a)
    requires Enabled(After(h, dayOf, w, a), s) && Admissible(dayOf, After(h, dayOf, w, a), s)
    ensures Legal(h, dayOf, w, a + [s])
    ensures After(h, dayOf, w, a + [s]) == Do(h, After(h, dayOf, w, a), s)
  {
    hide Do, Enabled, Admissible, Legal, After;
    RunOfOne(h, dayOf, After(h, dayOf, w, a), s);
    RunsJoin(h, dayOf, w, a, [s]);
  }

  const EMPTY_WORLD := World([], Down, [])

  lemma EmptyHolds(h: Hash, dayOf: string -> nat)
    ensures Inv(h, dayOf, EMPTY_WORLD)
  {
    assert ReadAll([]) == [];
  }

  lemma StepLogs(h: Hash, dayOf: string -> nat, w: World, s: Step)
    requires Inv(h, dayOf, w) && Enabled(w, s)
    ensures Do(h, w, s).log ==
            if s.Append? then w.log + [Sealed(h, s.entry, |w.log| + 1, TailHash(w.log))] else w.log
  {
    hide ReadAll, FromGenesis, Tidy, NewestPlain, Working, Sealed;
  }

  /**
   Whatever happens and wherever it is cut off, the archive reads as the one file would: no record lost,
   none doubled, none out of order, and every one of them sealed onto the one before it.
   */
  lemma {:induction false} ArchiveIsOneLog(h: Hash, dayOf: string -> nat, w: World, steps: seq<Step>)
    requires Inv(h, dayOf, w) && Legal(h, dayOf, w, steps)
    ensures Inv(h, dayOf, After(h, dayOf, w, steps))
    ensures ReadAll(After(h, dayOf, w, steps).disk) == SealAll(h, w.log, Entries(steps))
    decreases |steps|
  {
    if steps == [] {
      hide Tidy, Working, Running, FromGenesis;
    } else {
      hide Inv, Do, Enabled, Admissible, ReadAll, Sealed;
      StepKeeps(h, dayOf, w, steps[0]);
      StepLogs(h, dayOf, w, steps[0]);
      ArchiveIsOneLog(h, dayOf, Do(h, w, steps[0]), steps[1..]);
      assert Entries(steps) == (if steps[0].Append? then [steps[0].entry] else []) + Entries(steps[1..]);
      if steps[0].Append? {
        assert Entries(steps)[1..] == Entries(steps[1..]);
      } else {
        assert Entries(steps) == Entries(steps[1..]);
      }
    }
  }

  /** After any run the numbers read back are 1, 2, 3, ... and the records are one chain from the anchor. */
  lemma NumbersReadBack(h: Hash, dayOf: string -> nat, steps: seq<Step>)
    requires Legal(h, dayOf, EMPTY_WORLD, steps)
    ensures var recs := ReadAll(After(h, dayOf, EMPTY_WORLD, steps).disk);
            |recs| == |Entries(steps)| && FromGenesis(h, recs)
  {
    hide Tidy, Working, Running, FromGenesis, Legal, After, ReadAll, SealAll;
    EmptyHolds(h, dayOf);
    ArchiveIsOneLog(h, dayOf, EMPTY_WORLD, steps);
    SealAllLength(h, [], Entries(steps));
  }

  lemma {:induction false} SealAllLength(h: Hash, log: seq<Record>, entries: seq<Record>)
    ensures |SealAll(h, log, entries)| == |log| + |entries|
    decreases |entries|
  {
    hide Sealed;
    if entries != [] {
      SealAllLength(h, log + [Sealed(h, entries[0], |log| + 1, TailHash(log))], entries[1..]);
    }
  }

  /* One day at a time. */

  /** A step changes no day's records but those of the day it appends to, which it only extends by one. */
  lemma StepSparesDays(h: Hash, dayOf: string -> nat, w: World, s: Step, d: nat)
    requires Inv(h, dayOf, w) && Enabled(w, s) && Admissible(dayOf, w, s) && d < |w.disk|
    ensures d < |Do(h, w, s).disk|
    ensures Content(Do(h, w, s).disk[d]) ==
            Content(w.disk[d]) +
            if s.Append? && d == w.proc.day then [Sealed(h, s.entry, w.proc.seqNo + 1, w.proc.lastHash)] else []
  {
    hide ReadAll, FromGenesis, Sealed, OldDays;
    TidyAt(dayOf, w.disk, d);
    hide Tidy;
    if s.Rename? {
      var plain := Work(w).plain.value;
      assert plain[..|plain|] == plain;
    }
  }

  /** The file being appended to is plain, is the newest, and no compression ever touches it. */
  lemma CurrentFileIsPlain(h: Hash, dayOf: string -> nat, w: World)
    requires Inv(h, dayOf, w) && w.proc.Up?
    ensures w.proc.day == |w.disk| - 1
    ensures w.disk[w.proc.day].plain.Some? && w.disk[w.proc.day].packed.None?
    ensures w.proc.day !in w.proc.todo
  {
    hide ReadAll, FromGenesis, Tidy;
  }
}
