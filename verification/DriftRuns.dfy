/** One node's baseline over whole runs: readings, applies, confirmations, clean-up and restarts in any order. */
module DriftRuns {
  import opened Wrappers
  import opened DriftTable

  /* The stored record of one machine. */

  /** A file that is there holds a record or cannot be decoded. */
  datatype Entry = Kept(base: Baseline) | Illegible

  type Shelf = Option<Entry>

  /** What goes wrong around one attempt: nothing, the read fails, another writer comes between the read and
      the write (it saves the record that is there, or lays the one given where there is none; or it puts its
      own in place of whatever is there), or the write fails. */
  datatype Fault = Clear | GetFails | Overtaken(laid: Baseline) | Replaced(laid: Baseline) | PutFails

  datatype Got = Found(base: Baseline) | Missing | Failed

  datatype PutAnswer = Saved(base: Baseline) | Conflict | NotSaved

  function Get(shelf: Shelf, fault: Fault): Got {
    if fault.GetFails? then Failed
    else match shelf
      case None => Missing
      case Some(Illegible) => Failed
      case Some(Kept(base)) => Found(base)
  }

  /** A write that carries a revision other than the stored one is refused. */
  function Put(shelf: Shelf, rec: Baseline): (Shelf, PutAnswer) {
    match shelf
    case None =>
      if rec.rev != 0 then (shelf, Conflict) else (Some(Kept(rec.(rev := 1))), Saved(rec.(rev := 1)))
    case Some(Kept(cur)) =>
      if rec.rev != cur.rev then (shelf, Conflict)
      else (Some(Kept(rec.(rev := rec.rev + 1))), Saved(rec.(rev := rec.rev + 1)))
    case Some(Illegible) => (shelf, NotSaved)
  }

  function Interfere(shelf: Shelf, laid: Baseline): Shelf {
    match shelf
    case None => Some(Kept(laid.(rev := 1)))
    case Some(Kept(cur)) => Some(Kept(cur.(rev := cur.rev + 1)))
    case Some(Illegible) => shelf
  }

  function Replace(shelf: Shelf, laid: Baseline): Shelf {
    match shelf
    case None => Some(Kept(laid.(rev := 1)))
    case Some(Kept(cur)) => Some(Kept(laid.(rev := cur.rev + 1)))
    case Some(Illegible) => shelf
  }

  function FaultyPut(shelf: Shelf, rec: Baseline, fault: Fault): (Shelf, PutAnswer) {
    if fault.PutFails? then (shelf, NotSaved)
    else if fault.Overtaken? then Put(Interfere(shelf, fault.laid), rec)
    else if fault.Replaced? then Put(Replace(shelf, fault.laid), rec)
    else Put(shelf, rec)
  }

  /* One call. */

  /** How a call that judges a reading ends: compared, or not to be told. */
  datatype Verdict = Compared(state: State, since: Option<int>) | Untold

  /** One successful reading, decided again after each lost compare-and-swap until the attempts run out. */
  function Decide(env: Env, shelf: Shelf, m: Machine, snap: Snap, now: int, faults: seq<Fault>): (Shelf, Verdict)
    decreases |faults|
  {
    if faults == [] then (shelf, Untold)
    else
      match Get(shelf, faults[0])
      case Failed => (shelf, Compared(BaselineDamaged, None))
      case Missing =>
        (match FaultyPut(shelf, FirstSightOf(env, m, snap, now), faults[0])
         case (after, Saved(_)) => (after, Compared(BaselineCreated, None))
         case (after, Conflict) => Decide(env, after, m, snap, now, faults[1..])
         case (after, NotSaved) => (after, Untold))
      case Found(base) =>
        var j := Judge(env, base, m, snap, now);
        if j.write.None? then (shelf, Compared(j.state, j.since))
        else
          match FaultyPut(shelf, j.write.value, faults[0])
          case (after, Saved(_)) => (after, Compared(j.state, j.since))
          case (after, Conflict) => Decide(env, after, m, snap, now, faults[1..])
          case (after, NotSaved) => (after, Untold)
  }

  /** Leaves the expectation of an apply in a baseline that can be trusted. */
  function Expect(shelf: Shelf, id: string, exp: Expected, faults: seq<Fault>): (Shelf, bool)
    decreases |faults|
  {
    if faults == [] then (shelf, false)
    else
      match Get(shelf, faults[0])
      case Missing => (shelf, false)
      case Failed => (shelf, false)
      case Found(base) =>
        if Damaged(base, id) then (shelf, false)
        else
          match FaultyPut(shelf, base.(expected := Some(exp)), faults[0])
          case (after, Saved(_)) => (after, true)
          case (after, Conflict) => Expect(after, id, exp, faults[1..])
          case (after, NotSaved) => (after, false)
  }

  /** Takes back the expectation of one apply, and only that one. */
  function Unexpect(shelf: Shelf, exp: Expected, faults: seq<Fault>): Shelf
    decreases |faults|
  {
    if faults == [] then shelf
    else
      match Get(shelf, faults[0])
      case Missing => shelf
      case Failed => shelf
      case Found(base) =>
        if base.expected.None? || base.expected.value.digest != exp.digest || base.expected.value.at != exp.at then shelf
        else
          match FaultyPut(shelf, base.(expected := None), faults[0])
          case (after, Conflict) => Unexpect(after, exp, faults[1..])
          case (after, _) => after
  }

  /* What is held in memory about the node. */

  datatype Reading = Reading(state: State, at: int, lastGood: Option<int>, snap: Snap, since: Option<int>)

  const NO_SNAP := Snap("", OtherText(""))

  datatype Refusal = NotRead | NoDrift | DigestChanged

  predicate HexDigit(c: char) {
    '0' <= c <= '9' || 'a' <= c <= 'f'
  }

  /** A sha256 as lower-case hex. */
  predicate IsDigest(d: Digest) {
    match d
    case HashOf(_) => true
    case OtherText(chars) => |chars| == 64 && forall c :: c in chars ==> HexDigit(c)
  }

  function Confirmable(reading: Option<Reading>, digest: Digest): Option<Refusal> {
    if reading.None? || reading.value.state.Unreadable? then Some(NotRead)
    else if reading.value.state != Drift then Some(NoDrift)
    else if !IsDigest(digest) || digest != reading.value.snap.digest then Some(DigestChanged)
    else None
  }

  datatype Answer = Refused(why: Refusal) | DamagedBaseline | CannotLoad | CannotStore | Contended | Done

  function ConfirmedOf(env: Env, m: Machine, snap: Snap, rev: nat, now: int): Baseline {
    Baseline(m.id, rev, FORMAT, m.cluster, snap.text, snap.digest, now, Confirmed, env.machinery, None, None, None)
  }

  /** Makes the last reading the baseline, if it is still the one the operator saw. */
  function Confirm(env: Env, shelf: Shelf, m: Machine, reading: Option<Reading>, digest: Digest, now: int, faults: seq<Fault>): (Shelf, Answer)
    decreases |faults|
  {
    if faults == [] then (shelf, Contended)
    else if Confirmable(reading, digest).Some? then (shelf, Refused(Confirmable(reading, digest).value))
    else
      var got := Get(shelf, faults[0]);
      if got.Failed? then (shelf, CannotLoad)
      else if got.Found? && Damaged(got.base, m.id) then (shelf, DamagedBaseline)
      else
        match FaultyPut(shelf, ConfirmedOf(env, m, reading.value.snap, if got.Found? then got.base.rev else 0, now), faults[0])
        case (after, Saved(_)) => (after, Done)
        case (after, Conflict) => Confirm(env, after, m, reading, digest, now, faults[1..])
        case (after, NotSaved) => (after, CannotStore)
  }

  /** After a confirmation the display does not keep showing the difference that was just accepted. */
  function MarkedConfirmed(reading: Reading): Reading {
    reading.(state := if reading.state == Drift then Ok else reading.state, since := None)
  }

  /** A reading that failed: the last good one stays, and so does a deviation's start, taken from the record. */
  function FailedReading(reading: Option<Reading>, shelf: Shelf, fault: Fault, now: int): Reading {
    var prev := if reading.Some? then reading.value else Reading(Unreadable, now, None, NO_SNAP, None);
    var got := Get(shelf, fault);
    prev.(state := Unreadable, at := now, since := if got.Found? then got.base.driftSince else prev.since)
  }

  /** What may be handed to the table at all. */
  predicate Storable(env: Env, snap: Snap) {
    |snap.text| <= MAX_SNAPSHOT && !env.unsafe(snap.text)
  }

  /* Runs. */

  /**
   One node as the daemon has it: the stored record, the reading in memory, and the failed readings that
   were made from the reading in memory and are not in memory yet (that happens in two locked sections).
   */
  datatype Node = Node(shelf: Shelf, reading: Option<Reading>, pending: seq<Reading>)

  datatype Step =
    | Read(snap: Snap, now: int, faults: seq<Fault>, onFailure: Fault)
    | ReadFails(now: int, onFailure: Fault)
    | FailureShows(i: nat)
    | Expects(exp: Expected, faults: seq<Fault>)
    | Unexpects(exp: Expected, faults: seq<Fault>)
    | Confirms(digest: Digest, now: int, faults: seq<Fault>)
    | RecordDeleted
    | ReadingDropped
    | Restarts

  function Failing(node: Node, now: int, fault: Fault): Node {
    node.(pending := node.pending + [FailedReading(node.reading, node.shelf, fault, now)])
  }

  function Do(env: Env, m: Machine, node: Node, step: Step): Node {
    match step
    case Read(snap, now, faults, onFailure) =>
      if !Storable(env, snap) then Failing(node, now, onFailure)
      else
        (match Decide(env, node.shelf, m, snap, now, faults)
         case (shelf, Compared(state, since)) => node.(shelf := shelf, reading := Some(Reading(state, now, Some(now), snap, since)))
         case (shelf, Untold) => Failing(node.(shelf := shelf), now, onFailure))
    case ReadFails(now, onFailure) => Failing(node, now, onFailure)
    case FailureShows(i) =>
      if i < |node.pending| then
        node.(reading := Some(node.pending[i]), pending := node.pending[..i] + node.pending[i + 1..])
      else node
    case Expects(exp, faults) => node.(shelf := Expect(node.shelf, m.id, exp, faults).0)
    case Unexpects(exp, faults) => node.(shelf := Unexpect(node.shelf, exp, faults))
    case Confirms(digest, now, faults) =>
      (match Confirm(env, node.shelf, m, node.reading, digest, now, faults)
       case (shelf, Done) =>
         if node.reading.Some? then node.(shelf := shelf, reading := Some(MarkedConfirmed(node.reading.value))) else node
       case (shelf, _) => node.(shelf := shelf))
    case RecordDeleted => node.(shelf := None)
    case ReadingDropped => node.(reading := None)
    case Restarts => Node(node.shelf, None, [])
  }

  function After(env: Env, m: Machine, node: Node, run: seq<Step>): Node {
    if run == [] then node else Do(env, m, After(env, m, node, run[..|run| - 1]), run[|run| - 1])
  }

  /* A foreign change is never missed. */

  /**
   A reading that can be compared, is not the baseline in meaning, and is not covered by an own apply, unless
   a deviation is open, when no apply covers it.
   */
  ghost predicate Foreign(env: Env, m: Machine, shelf: Shelf, snap: Snap, now: int) {
    && shelf.Some? && shelf.value.Kept?
    && var base := shelf.value.base;
       && Comparable(env, base, m, snap) && !IsBaseline(env, base, snap)
       && (base.driftSince.Some? || (!IsOwn(env, base, snap, now) && !UnderWay(env, base, now)))
  }

  /** Some attempt meets no fault, and before it only other writers came between. */
  predicate Reaches(faults: seq<Fault>) {
    faults != [] && (faults[0].Clear? || (faults[0].Overtaken? && Reaches(faults[1..])))
  }

  /** Other writers leave what is in the record. */
  predicate Spared(faults: seq<Fault>) {
    forall f :: f in faults ==> !f.Replaced?
  }

  predicate SomeGetFails(faults: seq<Fault>) {
    exists i :: 0 <= i < |faults| && faults[i].GetFails?
  }

  /** What a foreign reading leaves of the record: its baseline, and the start of the deviation if it had one. */
  ghost predicate StartKept(before: Shelf, after: Shelf, now: int)
    requires before.Some? && before.value.Kept?
  {
    && after.Some? && after.value.Kept?
    && after.value.base.snapshot == before.value.base.snapshot && after.value.base.digest == before.value.base.digest
    && (before.value.base.driftSince.Some? ==> after.value.base.driftSince == before.value.base.driftSince)
    && (before.value.base.driftSince.None? ==> after.value.base.driftSince in {None, Some(now)})
  }

  function StartOf(shelf: Shelf, now: int): int
    requires shelf.Some? && shelf.value.Kept?
  {
    if shelf.value.base.driftSince.Some? then shelf.value.base.driftSince.value else now
  }

  /** Whatever goes wrong, it is drift, or it is not told; only a record that cannot be read is called damaged. */
  lemma {:induction false} ForeignDecided(env: Env, shelf: Shelf, m: Machine, snap: Snap, now: int, faults: seq<Fault>)
    requires Foreign(env, m, shelf, snap, now) && Spared(faults)
    ensures var (after, verdict) := Decide(env, shelf, m, snap, now, faults);
            var since := StartOf(shelf, now);
            && StartKept(shelf, after, now)
            && (verdict == Untold || verdict == Compared(Drift, Some(since)) ||
                (verdict == Compared(BaselineDamaged, None) && SomeGetFails(faults)))
            && (verdict == Compared(Drift, Some(since)) ==> after.value.base.driftSince == Some(since))
            && (Reaches(faults) ==> verdict == Compared(Drift, Some(since)))
    decreases |faults|
  {
    if faults != [] && !faults[0].GetFails? {
      var base := shelf.value.base;
      StateExact(env, base, m, snap, now);
      JudgeKeepsOpenDrift(env, base, m, snap, now);
      var j := Judge(env, base, m, snap, now);
      assert j.state == Drift && (j == Drifts(env, base, now) || j == Lands(env, base, m, snap, now));
      if j.write.Some? && faults[0].Overtaken? {
        var next := FaultyPut(shelf, j.write.value, faults[0]).0;
        assert next == Some(Kept(base.(rev := base.rev + 1)));
        OnlyRevisionDiffers(env, m, base, snap, now);
        ForeignDecided(env, next, m, snap, now, faults[1..]);
        assert forall i :: 0 <= i < |faults[1..]| ==> faults[1..][i] == faults[i + 1];
      }
    }
  }

  /** A revision is not looked at by the table. */
  lemma OnlyRevisionDiffers(env: Env, m: Machine, base: Baseline, snap: Snap, now: int)
    ensures Foreign(env, m, Some(Kept(base)), snap, now) ==> Foreign(env, m, Some(Kept(base.(rev := base.rev + 1))), snap, now)
  {
  }

  /**
   In memory and in the record: once an attempt goes through, a foreign reading is drift since its first
   sight, and until then what was shown before stays.
   */
  lemma ForeignIsDrift(env: Env, m: Machine, node: Node, snap: Snap, now: int, faults: seq<Fault>, onFailure: Fault)
    requires Storable(env, snap) && Foreign(env, m, node.shelf, snap, now) && Spared(faults)
    ensures var after := Do(env, m, node, Read(snap, now, faults, onFailure));
            var since := StartOf(node.shelf, now);
            var drift := Some(Reading(Drift, now, Some(now), snap, Some(since)));
            && StartKept(node.shelf, after.shelf, now)
            && (Reaches(faults) ==> after.reading == drift && after.shelf.value.base.driftSince == Some(since))
            && (!SomeGetFails(faults) ==> after.reading == drift || after.reading == node.reading)
  {
    hide Decide, Foreign, Judge;
    ForeignDecided(env, node.shelf, m, snap, now, faults);
  }

  /* An open deviation survives everything but its three ends. */

  /** The record with a deviation open since some time against some baseline. */
  ghost predicate Open(shelf: Shelf, since: int, text: string, digest: Digest) {
    && shelf.Some? && shelf.value.Kept?
    && shelf.value.base.driftSince == Some(since)
    && shelf.value.base.snapshot == text && shelf.value.base.digest == digest
  }

  /** No other writer puts a record of its own in place of the stored one while the step runs. */
  ghost predicate SparedBy(step: Step) {
    match step
    case Read(_, _, faults, _) => Spared(faults)
    case Expects(_, faults) => Spared(faults)
    case Unexpects(_, faults) => Spared(faults)
    case Confirms(_, _, faults) => Spared(faults)
    case _ => true
  }

  /** The three ends: the node is its baseline again, a confirmation succeeds, the record is deleted. */
  ghost predicate Ends(env: Env, m: Machine, node: Node, step: Step, text: string, digest: Digest) {
    match step
    case Read(snap, _, _, _) =>
      digest == snap.digest || (env.normalise(text).Some? && HashOf(env.normalise(text).value) == snap.digest)
    case Confirms(d, now, faults) => Confirm(env, node.shelf, m, node.reading, d, now, faults).1 == Done
    case RecordDeleted => true
    case _ => false
  }

  lemma {:induction false} DecideKeepsOpen(env: Env, shelf: Shelf, m: Machine, snap: Snap, now: int, faults: seq<Fault>,
                                           since: int, text: string, digest: Digest)
    requires Open(shelf, since, text, digest) && Spared(faults)
    requires digest != snap.digest && (env.normalise(text).Some? ==> HashOf(env.normalise(text).value) != snap.digest)
    ensures Open(Decide(env, shelf, m, snap, now, faults).0, since, text, digest)
    decreases |faults|
  {
    if faults != [] && Get(shelf, faults[0]).Found? {
      var base := shelf.value.base;
      var j := Judge(env, base, m, snap, now);
      JudgeKeepsOpenDrift(env, base, m, snap, now);
      if j.write.Some? {
        var (after, answer) := FaultyPut(shelf, j.write.value, faults[0]);
        if answer.Conflict? {
          DecideKeepsOpen(env, after, m, snap, now, faults[1..], since, text, digest);
        }
      }
    }
  }

  lemma {:induction false} ExpectKeepsOpen(shelf: Shelf, id: string, exp: Expected, faults: seq<Fault>,
                                           since: int, text: string, digest: Digest)
    requires Open(shelf, since, text, digest) && Spared(faults)
    ensures Open(Expect(shelf, id, exp, faults).0, since, text, digest)
    decreases |faults|
  {
    if faults != [] && Get(shelf, faults[0]).Found? {
      var (after, answer) := FaultyPut(shelf, shelf.value.base.(expected := Some(exp)), faults[0]);
      if answer.Conflict? {
        ExpectKeepsOpen(after, id, exp, faults[1..], since, text, digest);
      }
    }
  }

  lemma {:induction false} UnexpectKeepsOpen(shelf: Shelf, exp: Expected, faults: seq<Fault>,
                                             since: int, text: string, digest: Digest)
    requires Open(shelf, since, text, digest) && Spared(faults)
    ensures Open(Unexpect(shelf, exp, faults), since, text, digest)
    decreases |faults|
  {
    if faults != [] && Get(shelf, faults[0]).Found? {
      var (after, answer) := FaultyPut(shelf, shelf.value.base.(expected := None), faults[0]);
      if answer.Conflict? {
        UnexpectKeepsOpen(after, exp, faults[1..], since, text, digest);
      }
    }
  }

  lemma {:induction false} ConfirmKeepsOpen(env: Env, shelf: Shelf, m: Machine, reading: Option<Reading>, d: Digest, now: int,
                                            faults: seq<Fault>, since: int, text: string, digest: Digest)
    requires Open(shelf, since, text, digest) && Spared(faults) && Confirm(env, shelf, m, reading, d, now, faults).1 != Done
    ensures Open(Confirm(env, shelf, m, reading, d, now, faults).0, since, text, digest)
    decreases |faults|
  {
    if faults != [] && Confirmable(reading, d).None? {
      var got := Get(shelf, faults[0]);
      if got.Found? && !Damaged(got.base, m.id) {
        var (after, answer) := FaultyPut(shelf, ConfirmedOf(env, m, reading.value.snap, got.base.rev, now), faults[0]);
        if answer.Conflict? {
          ConfirmKeepsOpen(env, after, m, reading, d, now, faults[1..], since, text, digest);
        }
      }
    }
  }

  lemma StepKeepsOpen(env: Env, m: Machine, node: Node, step: Step, since: int, text: string, digest: Digest)
    requires Open(node.shelf, since, text, digest) && SparedBy(step) && !Ends(env, m, node, step, text, digest)
    ensures Open(Do(env, m, node, step).shelf, since, text, digest)
  {
    match step
    case Read(snap, now, faults, _) => DecideKeepsOpen(env, node.shelf, m, snap, now, faults, since, text, digest);
    case Expects(exp, faults) => ExpectKeepsOpen(node.shelf, m.id, exp, faults, since, text, digest);
    case Unexpects(exp, faults) => UnexpectKeepsOpen(node.shelf, exp, faults, since, text, digest);
    case Confirms(d, now, faults) =>
      if Confirm(env, node.shelf, m, node.reading, d, now, faults).1 != Done {
        ConfirmKeepsOpen(env, node.shelf, m, node.reading, d, now, faults, since, text, digest);
      }
    case _ =>
  }

  /** From the moment a deviation is open, its start and its baseline stay what they are until one of the three ends. */
  lemma {:induction false} OpenDriftSurvives(env: Env, m: Machine, node: Node, run: seq<Step>, since: int, text: string, digest: Digest)
    requires Open(node.shelf, since, text, digest)
    requires forall i :: 0 <= i < |run| ==> SparedBy(run[i]) && !Ends(env, m, After(env, m, node, run[..i]), run[i], text, digest)
    ensures Open(After(env, m, node, run).shelf, since, text, digest)
  {
    if run != [] {
      var before := run[..|run| - 1];
      forall i | 0 <= i < |before|
        ensures SparedBy(before[i]) && !Ends(env, m, After(env, m, node, before[..i]), before[i], text, digest)
      {
        assert before[..i] == run[..i];
      }
      OpenDriftSurvives(env, m, node, before, since, text, digest);
      StepKeepsOpen(env, m, After(env, m, node, before), run[|run| - 1], since, text, digest);
    }
  }

  /* What is stored may be stored, and what is confirmed was seen. */

  /** A snapshot as the reader of configurations makes it. */
  ghost predicate SnapMade(snap: Snap) {
    snap.text != "" && snap.digest == HashOf(snap.text)
  }

  /** Other writers lay nothing this service would not have, be it their own record in place of the stored one. */
  ghost predicate FaultsSound(env: Env, m: Machine, faults: seq<Fault>) {
    forall f :: f in faults && (f.Overtaken? || f.Replaced?) ==> Sound(env, f.laid, m.id)
  }

  ghost predicate ShelfSound(env: Env, m: Machine, shelf: Shelf) {
    shelf.Some? && shelf.value.Kept? ==> Sound(env, shelf.value.base, m.id)
  }

  /** Whatever is stored or could be confirmed was checked, and a failed reading never turns into a drift. */
  ghost predicate Inv(env: Env, m: Machine, node: Node) {
    && ShelfSound(env, m, node.shelf)
    && (node.reading.Some? && node.reading.value.state == Drift ==> SnapChecked(env, node.reading.value.snap))
    && forall i :: 0 <= i < |node.pending| ==> node.pending[i].state == Unreadable
  }

  lemma {:induction false} DecideSound(env: Env, shelf: Shelf, m: Machine, snap: Snap, now: int, faults: seq<Fault>)
    requires FaultsSound(env, m, faults)
    requires ShelfSound(env, m, shelf) && SnapChecked(env, snap)
    ensures ShelfSound(env, m, Decide(env, shelf, m, snap, now, faults).0)
    decreases |faults|
  {
    if faults != [] {
      var got := Get(shelf, faults[0]);
      if got.Found? {
        var j := Judge(env, got.base, m, snap, now);
        JudgeKeepsSound(env, got.base, m, snap, now);
        if j.write.Some? && FaultyPut(shelf, j.write.value, faults[0]).1.Conflict? {
          DecideSound(env, FaultyPut(shelf, j.write.value, faults[0]).0, m, snap, now, faults[1..]);
        }
      } else if got.Missing? {
        var (after, answer) := FaultyPut(shelf, FirstSightOf(env, m, snap, now), faults[0]);
        if answer.Conflict? {
          DecideSound(env, after, m, snap, now, faults[1..]);
        }
      }
    }
  }

  lemma {:induction false} ExpectSound(env: Env, m: Machine, shelf: Shelf, exp: Expected, faults: seq<Fault>)
    requires FaultsSound(env, m, faults)
    requires ShelfSound(env, m, shelf)
    ensures ShelfSound(env, m, Expect(shelf, m.id, exp, faults).0)
    decreases |faults|
  {
    if faults != [] && Get(shelf, faults[0]).Found? {
      var (after, answer) := FaultyPut(shelf, shelf.value.base.(expected := Some(exp)), faults[0]);
      if answer.Conflict? {
        ExpectSound(env, m, after, exp, faults[1..]);
      }
    }
  }

  lemma {:induction false} UnexpectSound(env: Env, m: Machine, shelf: Shelf, exp: Expected, faults: seq<Fault>)
    requires FaultsSound(env, m, faults)
    requires ShelfSound(env, m, shelf)
    ensures ShelfSound(env, m, Unexpect(shelf, exp, faults))
    decreases |faults|
  {
    if faults != [] && Get(shelf, faults[0]).Found? {
      var (after, answer) := FaultyPut(shelf, shelf.value.base.(expected := None), faults[0]);
      if answer.Conflict? {
        UnexpectSound(env, m, after, exp, faults[1..]);
      }
    }
  }

  /** A confirmation that succeeds installs exactly the snapshot with the digest that was passed, with nothing
      open and nothing expected; one that does not leaves a sound record sound. */
  lemma {:induction false} ConfirmExact(env: Env, shelf: Shelf, m: Machine, reading: Option<Reading>, digest: Digest, now: int, faults: seq<Fault>)
    requires FaultsSound(env, m, faults)
    requires ShelfSound(env, m, shelf)
    requires reading.Some? && reading.value.state == Drift ==> SnapChecked(env, reading.value.snap)
    ensures var (after, answer) := Confirm(env, shelf, m, reading, digest, now, faults);
            && ShelfSound(env, m, after)
            && (answer == Done ==>
                  && reading.Some? && reading.value.state == Drift && reading.value.snap.digest == digest
                  && after.Some? && after.value.Kept?
                  && var b := after.value.base;
                     && b.digest == digest == HashOf(b.snapshot) && b.snapshot == reading.value.snap.text
                     && b.driftSince.None? && b.appliedOnDriftAt.None? && b.expected.None? && b.source == Confirmed)
    decreases |faults|
  {
    if faults != [] && Confirmable(reading, digest).None? {
      var got := Get(shelf, faults[0]);
      if !got.Failed? && (got.Found? ==> !Damaged(got.base, m.id)) {
        var rec := ConfirmedOf(env, m, reading.value.snap, if got.Found? then got.base.rev else 0, now);
        var (after, answer) := FaultyPut(shelf, rec, faults[0]);
        if answer.Conflict? {
          ConfirmExact(env, after, m, reading, digest, now, faults[1..]);
        }
      }
    }
  }

  /** The snapshots a step brings are made by the normaliser, and other writers are no worse than this one. */
  ghost predicate Honest(env: Env, m: Machine, step: Step) {
    match step
    case Read(snap, _, faults, _) => SnapMade(snap) && FaultsSound(env, m, faults)
    case Expects(_, faults) => FaultsSound(env, m, faults)
    case Unexpects(_, faults) => FaultsSound(env, m, faults)
    case Confirms(_, _, faults) => FaultsSound(env, m, faults)
    case _ => true
  }

  lemma StepKeepsInv(env: Env, m: Machine, node: Node, step: Step)
    requires Inv(env, m, node) && Honest(env, m, step)
    ensures Inv(env, m, Do(env, m, node, step))
  {
    match step
    case Read(snap, now, faults, _) =>
      if Storable(env, snap) {
        DecideSound(env, node.shelf, m, snap, now, faults);
      }
    case Expects(exp, faults) => ExpectSound(env, m, node.shelf, exp, faults);
    case Unexpects(exp, faults) => UnexpectSound(env, m, node.shelf, exp, faults);
    case Confirms(d, now, faults) => ConfirmExact(env, node.shelf, m, node.reading, d, now, faults);
    case _ =>
  }

  /** Over any run every stored baseline is undamaged, under the cap and checked for private keys. */
  lemma {:induction false} BaselinesStaySound(env: Env, m: Machine, node: Node, run: seq<Step>)
    requires Inv(env, m, node)
    requires forall i :: 0 <= i < |run| ==> Honest(env, m, run[i])
    ensures Inv(env, m, After(env, m, node, run))
  {
    if run != [] {
      BaselinesStaySound(env, m, node, run[..|run| - 1]);
      StepKeepsInv(env, m, After(env, m, node, run[..|run| - 1]), run[|run| - 1]);
    }
  }

  /** A reading that was compared and found to be drift. */
  ghost predicate FindsDrift(env: Env, m: Machine, node: Node, step: Step) {
    && step.Read? && Storable(env, step.snap)
    && var verdict := Decide(env, node.shelf, m, step.snap, step.now, step.faults).1;
       verdict.Compared? && verdict.state == Drift
  }

  ghost predicate ShowsDrift(node: Node) {
    node.reading.Some? && node.reading.value.state == Drift
  }

  ghost predicate Succeeds(env: Env, m: Machine, node: Node, step: Step) {
    step.Confirms? && Confirm(env, node.shelf, m, node.reading, step.digest, step.now, step.faults).1 == Done
  }

  lemma {:induction false} OnlyDecideShowsDrift(env: Env, m: Machine, node: Node, run: seq<Step>)
    requires !ShowsDrift(node) && forall i :: 0 <= i < |node.pending| ==> node.pending[i].state == Unreadable
    requires forall i :: 0 <= i < |run| ==> !FindsDrift(env, m, After(env, m, node, run[..i]), run[i])
    ensures var after := After(env, m, node, run);
            !ShowsDrift(after) && forall i :: 0 <= i < |after.pending| ==> after.pending[i].state == Unreadable
  {
    hide Do, FindsDrift;
    if run != [] {
      var before := run[..|run| - 1];
      forall i | 0 <= i < |before|
        ensures !FindsDrift(env, m, After(env, m, node, before[..i]), before[i])
      {
        assert before[..i] == run[..i];
      }
      OnlyDecideShowsDrift(env, m, node, before);
      StepShowsNoDrift(env, m, After(env, m, node, before), run[|before|]);
    }
  }

  lemma StepShowsNoDrift(env: Env, m: Machine, node: Node, step: Step)
    requires !ShowsDrift(node) && forall i :: 0 <= i < |node.pending| ==> node.pending[i].state == Unreadable
    requires !FindsDrift(env, m, node, step)
    ensures var after := Do(env, m, node, step);
            !ShowsDrift(after) && forall i :: 0 <= i < |after.pending| ==> after.pending[i].state == Unreadable
  {
    hide Decide, Expect, Unexpect, Confirm;
  }

  lemma {:induction false} DoneNeedsDrift(env: Env, shelf: Shelf, m: Machine, reading: Option<Reading>, digest: Digest, now: int, faults: seq<Fault>)
    requires Confirm(env, shelf, m, reading, digest, now, faults).1 == Done
    ensures reading.Some? && reading.value.state == Drift
    decreases |faults|
  {
    var got := Get(shelf, faults[0]);
    var rec := ConfirmedOf(env, m, reading.value.snap, if got.Found? then got.base.rev else 0, now);
    if FaultyPut(shelf, rec, faults[0]).1.Conflict? {
      DoneNeedsDrift(env, FaultyPut(shelf, rec, faults[0]).0, m, reading, digest, now, faults[1..]);
    }
  }

  /** Between two confirmations that succeed some reading was compared and found to be drift. */
  lemma NoConfirmTwice(env: Env, m: Machine, node: Node, first: Step, between: seq<Step>, second: Step)
    requires forall i :: 0 <= i < |node.pending| ==> node.pending[i].state == Unreadable
    requires Succeeds(env, m, node, first)
    requires Succeeds(env, m, After(env, m, Do(env, m, node, first), between), second)
    ensures exists i :: 0 <= i < |between| &&
              FindsDrift(env, m, After(env, m, Do(env, m, node, first), between[..i]), between[i])
  {
    hide Decide, Expect, Unexpect, Confirm, FindsDrift, After;
    var start := Do(env, m, node, first);
    DoneNeedsDrift(env, node.shelf, m, node.reading, first.digest, first.now, first.faults);
    if forall i :: 0 <= i < |between| ==> !FindsDrift(env, m, After(env, m, start, between[..i]), between[i]) {
      OnlyDecideShowsDrift(env, m, start, between);
      var last := After(env, m, start, between);
      DoneNeedsDrift(env, last.shelf, m, last.reading, second.digest, second.now, second.faults);
      assert false;
    }
  }

  /* Own changes are never drift. */

  /** A snapshot of what loads is its own snapshot. */
  ghost predicate Settled(env: Env) {
    forall t: string :: env.normalise(t).Some? ==> env.normalise(env.normalise(t).value) == env.normalise(t)
  }

  /** The node still runs its baseline and the apply of exp has not landed: exp waits, unless it is the
      baseline itself and was spent. */
  ghost predicate Waits(env: Env, m: Machine, shelf: Shelf, old': Snap, exp: Expected) {
    && shelf.Some? && shelf.value.Kept?
    && var b := shelf.value.base;
       && !Damaged(b, m.id) && env.normalise(b.snapshot).Some? && IsBaseline(env, b, old')
       && b.driftSince.None? && b.appliedOnDriftAt.None?
       && (b.expected == Some(exp) || (b.expected.None? && exp.digest == old'.digest))
  }

  /** What was sent is the baseline now. */
  ghost predicate HasLanded(m: Machine, shelf: Shelf, new': Snap) {
    && shelf.Some? && shelf.value.Kept?
    && var b := shelf.value.base;
       !Damaged(b, m.id) && b.digest == new'.digest && b.driftSince.None?
  }

  /** Memory says neither drift nor settling, and no failed reading on its way does. */
  ghost predicate Quiet(node: Node) {
    && (node.reading.Some? ==> node.reading.value.state !in {Drift, Settling})
    && forall i :: 0 <= i < |node.pending| ==> node.pending[i].state == Unreadable
  }

  /** A reading of one configuration, or anything that only loses readings. */
  predicate Calm(step: Step, snap: Snap) {
    match step
    case Read(s, _, faults, _) => s == snap && Spared(faults)
    case ReadFails(_, _) => true
    case FailureShows(_) => true
    case ReadingDropped => true
    case Restarts => true
    case _ => false
  }

  /** The step reads inside the window of an apply, if it reads at all. */
  predicate InWindow(env: Env, exp: Expected, step: Step) {
    step.Read? ==> StillCounts(env, exp, step.now)
  }

  /** The node shows its baseline, inside the window. */
  ghost predicate WaitingSteps(env: Env, exp: Expected, old': Snap, run: seq<Step>) {
    forall i :: 0 <= i < |run| ==> Calm(run[i], old') && InWindow(env, exp, run[i])
  }

  /** The node shows what was sent, inside the window until it has landed. */
  ghost predicate LandingSteps(env: Env, m: Machine, node: Node, exp: Expected, new': Snap, run: seq<Step>) {
    forall i :: 0 <= i < |run| ==>
      Calm(run[i], new') && (InWindow(env, exp, run[i]) || HasLanded(m, After(env, m, node, run[..i]).shelf, new'))
  }

  /** Some reading goes through. */
  ghost predicate SomeReadReaches(run: seq<Step>) {
    exists i :: 0 <= i < |run| && run[i].Read? && Reaches(run[i].faults)
  }

  lemma CalmStaysQuiet(env: Env, m: Machine, node: Node, step: Step, snap: Snap)
    requires Quiet(node) && Calm(step, snap)
    requires step.Read? ==>
      match Decide(env, node.shelf, m, step.snap, step.now, step.faults).1 {
        case Compared(state, _) => state !in {Drift, Settling}
        case Untold => true
      }
    ensures Quiet(Do(env, m, node, step))
  {
    hide Decide;
  }

  /** One reading of the baseline while the apply waits, whatever goes wrong around it. */
  lemma {:induction false} WaitingDecided(env: Env, m: Machine, shelf: Shelf, old': Snap, exp: Expected, now: int, faults: seq<Fault>)
    requires Settled(env) && env.Sane() && Storable(env, old') && Waits(env, m, shelf, old', exp) && Adopts(env, exp, now)
    requires Spared(faults)
    ensures var (after, verdict) := Decide(env, shelf, m, old', now, faults);
            Waits(env, m, after, old', exp) && verdict in {Untold, Compared(Ok, None), Compared(BaselineDamaged, None)}
    decreases |faults|
  {
    if faults != [] && !faults[0].GetFails? {
      WaitingJudged(env, m, shelf.value.base, old', exp, now);
      hide Judge, Waits, Settled;
      var j := Judge(env, shelf.value.base, m, old', now);
      if j.write.Some? && faults[0].Overtaken? {
        var next := FaultyPut(shelf, j.write.value, faults[0]).0;
        assert next == Some(Kept(shelf.value.base.(rev := shelf.value.base.rev + 1)));
        WaitingDecided(env, m, next, old', exp, now, faults[1..]);
      }
    }
  }

  lemma WaitingJudged(env: Env, m: Machine, base: Baseline, old': Snap, exp: Expected, now: int)
    requires Settled(env) && env.Sane() && Storable(env, old') && Waits(env, m, Some(Kept(base)), old', exp) && Adopts(env, exp, now)
    ensures var j := Judge(env, base, m, old', now);
            && j.state == Ok && j.since == None
            && (j.write.Some? ==> j.write.value.rev == base.rev && Waits(env, m, Some(Kept(j.write.value.(rev := base.rev + 1))), old', exp))
    ensures Waits(env, m, Some(Kept(base.(rev := base.rev + 1))), old', exp)
  {
  }

  /** One reading of what was sent: nothing of it is told, or it lands; once an attempt goes through it has. */
  lemma {:induction false} LandingDecided(env: Env, m: Machine, shelf: Shelf, old': Snap, new': Snap, exp: Expected, now: int, faults: seq<Fault>)
    requires SnapMade(new') && Storable(env, new') && exp.digest == new'.digest
    requires HasLanded(m, shelf, new') || (Waits(env, m, shelf, old', exp) && Adopts(env, exp, now))
    requires Spared(faults)
    ensures var (after, verdict) := Decide(env, shelf, m, new', now, faults);
            && (HasLanded(m, after, new') || (Waits(env, m, after, old', exp) && !HasLanded(m, shelf, new')))
            && verdict in {Untold, Compared(Ok, None), Compared(BaselineDamaged, None)}
            && (verdict == Compared(Ok, None) ==> HasLanded(m, after, new'))
            && (Reaches(faults) ==> verdict == Compared(Ok, None))
    decreases |faults|
  {
    if faults != [] && !faults[0].GetFails? {
      LandingJudged(env, m, shelf.value.base, old', new', exp, now);
      hide Judge, Waits, HasLanded, Adopts;
      var j := Judge(env, shelf.value.base, m, new', now);
      if j.write.Some? && faults[0].Overtaken? {
        var next := FaultyPut(shelf, j.write.value, faults[0]).0;
        assert next == Some(Kept(shelf.value.base.(rev := shelf.value.base.rev + 1)));
        LandingDecided(env, m, next, old', new', exp, now, faults[1..]);
      }
    }
  }

  lemma LandingJudged(env: Env, m: Machine, base: Baseline, old': Snap, new': Snap, exp: Expected, now: int)
    requires SnapMade(new') && Storable(env, new') && exp.digest == new'.digest
    requires HasLanded(m, Some(Kept(base)), new') || (Waits(env, m, Some(Kept(base)), old', exp) && Adopts(env, exp, now))
    ensures var j := Judge(env, base, m, new', now);
            && j.state == Ok && j.since == None
            && (j.write.Some? ==> j.write.value.rev == base.rev && HasLanded(m, Some(Kept(j.write.value.(rev := base.rev + 1))), new'))
            && (j.write.None? ==> HasLanded(m, Some(Kept(base)), new'))
    ensures HasLanded(m, Some(Kept(base.(rev := base.rev + 1))), new') == HasLanded(m, Some(Kept(base)), new')
    ensures Waits(env, m, Some(Kept(base.(rev := base.rev + 1))), old', exp) == Waits(env, m, Some(Kept(base)), old', exp)
  {
  }

  /** Readings of the baseline, failed readings, lost writes and restarts while the apply waits. */
  lemma {:induction false} WaitingRun(env: Env, m: Machine, node: Node, old': Snap, exp: Expected, run: seq<Step>)
    requires Settled(env) && env.Sane() && Storable(env, old') && Waits(env, m, node.shelf, old', exp) && Quiet(node)
    requires WaitingSteps(env, exp, old', run)
    ensures Waits(env, m, After(env, m, node, run).shelf, old', exp) && Quiet(After(env, m, node, run))
  {
    if run != [] {
      var init, last := run[..|run| - 1], run[|run| - 1];
      WaitingRun(env, m, node, old', exp, init);
      var before := After(env, m, node, init);
      if last.Read? {
        WaitingDecided(env, m, before.shelf, old', exp, last.now, last.faults);
      }
      hide Decide, Waits, Settled, Quiet;
      CalmStaysQuiet(env, m, before, last, old');
    }
  }

  lemma LandingStepsInit(env: Env, m: Machine, node: Node, exp: Expected, new': Snap, run: seq<Step>)
    requires run != [] && LandingSteps(env, m, node, exp, new', run)
    ensures var init, last := run[..|run| - 1], run[|run| - 1];
            && LandingSteps(env, m, node, exp, new', init) && Calm(last, new')
            && (InWindow(env, exp, last) || HasLanded(m, After(env, m, node, init).shelf, new'))
            && (SomeReadReaches(run) ==> SomeReadReaches(init) || (last.Read? && Reaches(last.faults)))
  {
    hide After, Calm, InWindow, HasLanded, Reaches;
    var n := |run| - 1;
    var init := run[..n];
    assert forall i :: 0 <= i < n ==> init[i] == run[i] && init[..i] == run[..i];
    if SomeReadReaches(run) {
      var i :| 0 <= i < |run| && run[i].Read? && Reaches(run[i].faults);
      assert i < n ==> init[i] == run[i];
    }
  }

  lemma LandingStep(env: Env, m: Machine, node: Node, old': Snap, new': Snap, exp: Expected, step: Step)
    requires SnapMade(new') && Storable(env, new') && exp.digest == new'.digest && Quiet(node) && Calm(step, new')
    requires HasLanded(m, node.shelf, new') || (Waits(env, m, node.shelf, old', exp) && InWindow(env, exp, step))
    ensures var after := Do(env, m, node, step);
            && Quiet(after) && (HasLanded(m, after.shelf, new') || (Waits(env, m, after.shelf, old', exp) && !HasLanded(m, node.shelf, new')))
            && (step.Read? && Reaches(step.faults) ==> HasLanded(m, after.shelf, new'))
  {
    if step.Read? {
      LandingDecided(env, m, node.shelf, old', new', exp, step.now, step.faults);
    }
    hide Decide, Waits, HasLanded, Quiet;
    CalmStaysQuiet(env, m, node, step, new');
  }

  /** The same for readings of what was sent, in the window until it has landed. */
  lemma {:induction false} LandingRun(env: Env, m: Machine, node: Node, old': Snap, new': Snap, exp: Expected, run: seq<Step>)
    requires SnapMade(new') && Storable(env, new') && exp.digest == new'.digest && Quiet(node)
    requires HasLanded(m, node.shelf, new') || Waits(env, m, node.shelf, old', exp)
    requires LandingSteps(env, m, node, exp, new', run)
    ensures var after := After(env, m, node, run);
            && Quiet(after) && (HasLanded(m, after.shelf, new') || (Waits(env, m, after.shelf, old', exp) && !HasLanded(m, node.shelf, new')))
            && (SomeReadReaches(run) ==> HasLanded(m, after.shelf, new'))
  {
    hide Do, Waits, HasLanded, Quiet, LandingSteps, Calm, InWindow, Reaches, SnapMade, Storable;
    if run != [] {
      var init, last := run[..|run| - 1], run[|run| - 1];
      LandingStepsInit(env, m, node, exp, new', run);
      LandingRun(env, m, node, old', new', exp, init);
      LandingStep(env, m, After(env, m, node, init), old', new', exp, last);
    }
  }

  /** A node on its baseline with nothing open. */
  ghost predicate AtRest(env: Env, m: Machine, shelf: Shelf, old': Snap) {
    && shelf.Some? && shelf.value.Kept?
    && var b := shelf.value.base;
       && !Damaged(b, m.id) && env.normalise(b.snapshot).Some? && IsBaseline(env, b, old')
       && b.driftSince.None? && b.appliedOnDriftAt.None?
  }

  /** However often another writer comes between, an expectation that was stored is in the record. */
  lemma {:induction false} ExpectedWaits(env: Env, m: Machine, shelf: Shelf, old': Snap, exp: Expected, faults: seq<Fault>)
    requires AtRest(env, m, shelf, old') && Expect(shelf, m.id, exp, faults).1 && Spared(faults)
    ensures Waits(env, m, Expect(shelf, m.id, exp, faults).0, old', exp)
    decreases |faults|
  {
    var rec := shelf.value.base.(expected := Some(exp));
    if faults[0].Overtaken? {
      ExpectedWaits(env, m, FaultyPut(shelf, rec, faults[0]).0, old', exp, faults[1..]);
    }
  }

  lemma ExpectedNode(env: Env, m: Machine, start: Node, old': Snap, exp: Expected, faults: seq<Fault>)
    requires AtRest(env, m, start.shelf, old') && Quiet(start) && Expect(start.shelf, m.id, exp, faults).1 && Spared(faults)
    ensures var node := Do(env, m, start, Expects(exp, faults)); Waits(env, m, node.shelf, old', exp) && Quiet(node)
  {
    ExpectedWaits(env, m, start.shelf, old', exp, faults);
    hide AtRest, Waits, Expect;
  }

  lemma LandedText(m: Machine, shelf: Shelf, new': Snap)
    requires HasLanded(m, shelf, new') && SnapMade(new')
    ensures shelf.Some? && shelf.value.Kept? && shelf.value.base.snapshot == new'.text
  {
  }

  /**
   Starting without an open deviation, with the expectation of an apply stored: while the node shows its
   baseline and then the one configuration that was sent, its first showing inside the window of the mode,
   with any failed readings, lost writes and restarts between, memory never says drift or settling.  Once a
   reading of what was sent goes through, it is the baseline, and stays it.
   */
  lemma OwnChangeIsNeverDrift(env: Env, m: Machine, start: Node, old': Snap, new': Snap, exp: Expected, faults: seq<Fault>,
                              quiet: seq<Step>, landing: seq<Step>)
    requires env.Sane() && Settled(env) && Storable(env, old') && Storable(env, new') && SnapMade(new') && Quiet(start)
    requires AtRest(env, m, start.shelf, old') && exp.digest == new'.digest && Expect(start.shelf, m.id, exp, faults).1
    requires Spared(faults) && WaitingSteps(env, exp, old', quiet)
    requires LandingSteps(env, m, After(env, m, Do(env, m, start, Expects(exp, faults)), quiet), exp, new', landing)
    ensures var before := After(env, m, Do(env, m, start, Expects(exp, faults)), quiet);
            var after := After(env, m, before, landing);
            && Quiet(before) && Quiet(after)
            && (HasLanded(m, after.shelf, new') || Waits(env, m, after.shelf, old', exp))
            && (SomeReadReaches(landing) ==>
                  HasLanded(m, after.shelf, new') && after.shelf.value.base.snapshot == new'.text)
  {
    hide *;
    ExpectedNode(env, m, start, old', exp, faults);
    var node := Do(env, m, start, Expects(exp, faults));
    WaitingRun(env, m, node, old', exp, quiet);
    var before := After(env, m, node, quiet);
    LandingRun(env, m, before, old', new', exp, landing);
    if SomeReadReaches(landing) {
      LandedText(m, After(env, m, before, landing).shelf, new');
    }
  }
}
