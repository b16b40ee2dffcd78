/** What one reading of a node's configuration means against its stored baseline. */
module DriftTable {
  import opened Wrappers

  /** A digest as text: the hash of a text, which no other text has, or anything else. */
  datatype Digest = HashOf(text: string) | OtherText(chars: string)

  datatype Mode = Staged | Reboot | Auto | Other(name: string)

  /** What an apply left behind that has not landed yet. */
  datatype Expected = Expected(digest: Digest, mode: Mode, at: int)

  datatype Source = FirstSight | Apply | Confirmed

  datatype Baseline = Baseline(
    machine: string,
    rev: nat,
    format: int,
    cluster: string,
    snapshot: string,
    digest: Digest,
    takenAt: int,
    source: Source,
    machinery: string,
    driftSince: Option<int>,
    appliedOnDriftAt: Option<int>,
    expected: Option<Expected>)

  datatype Snap = Snap(text: string, digest: Digest)

  datatype State = BaselineCreated | Ok | Settling | Drift | Unreadable | BaselineDamaged

  const FORMAT: int := 1
  const MAX_SNAPSHOT: nat := 0x10_0000
  const HOUR: nat := 3600
  const ADOPT_WINDOW: nat := 24 * HOUR

  /**
   What the table takes from elsewhere: the snapshot of a configuration text, None when it does not load;
   whether a text still holds a private key; how long an apply settles; the version of the machinery.
   */
  datatype Env = Env(normalise: string -> Option<string>, unsafe: string -> bool, settleWindow: int, machinery: string) {

    /** A text that may be stored. */
    predicate Clean(text: string) {
      0 < |text| <= MAX_SNAPSHOT && !unsafe(text)
    }

    /** A snapshot is only ever made of what may be stored. */
    ghost predicate Sane() {
      forall t: string :: normalise(t).Some? ==> Clean(normalise(t).value)
    }
  }

  /** What belongs to the node a reading is of. */
  datatype Machine = Machine(id: string, cluster: string)

  predicate Settles(env: Env, e: Expected, now: int) {
    e.mode != Staged && now - e.at < env.settleWindow
  }

  predicate Adopts(env: Env, e: Expected, now: int) {
    match e.mode
    case Staged => true
    case Reboot => now - e.at < ADOPT_WINDOW
    case Auto => now - e.at < ADOPT_WINDOW
    case Other(_) => now - e.at < env.settleWindow
  }

  predicate Stale(env: Env, e: Expected, now: int) {
    !Adopts(env, e, now)
  }

  predicate Damaged(b: Baseline, id: string) {
    b.format != FORMAT || b.snapshot == "" || b.digest != HashOf(b.snapshot) || b.machine != id
  }

  /** What a reading comes to: the record to write if any, the state, and the start of the deviation shown. */
  datatype Judgement = Judgement(write: Option<Baseline>, state: State, since: Option<int>)

  const BROKEN := Judgement(None, BaselineDamaged, None)

  function FirstSightOf(env: Env, m: Machine, snap: Snap, now: int): Baseline {
    Baseline(m.id, 0, FORMAT, m.cluster, snap.text, snap.digest, now, FirstSight, env.machinery, None, None, None)
  }

  /** The record after the configuration that was sent has landed. */
  function Landed(env: Env, base: Baseline, m: Machine, snap: Snap, now: int): Baseline {
    base.(format := FORMAT, cluster := m.cluster, snapshot := snap.text, digest := snap.digest, takenAt := now,
          source := Apply, machinery := env.machinery, driftSince := None, appliedOnDriftAt := None, expected := None)
  }

  function SpentIf(base: Baseline, spent: bool): Option<Expected> {
    if spent then None else base.expected
  }

  /** The node is the baseline, byte for byte. */
  function SameBytes(env: Env, base: Baseline, now: int): Judgement {
    var spent := base.expected.Some? && (base.expected.value.digest == base.digest || Stale(env, base.expected.value, now));
    Judgement(if base.driftSince.Some? || base.appliedOnDriftAt.Some? || spent
              then Some(base.(driftSince := None, appliedOnDriftAt := None, expected := SpentIf(base, spent))) else None,
              Ok, None)
  }

  /** The node is the baseline once the stored text is brought to the form the running machinery gives it. */
  function SameMeaning(env: Env, base: Baseline, text: string, now: int): Judgement {
    var spent := base.expected.Some? && (base.expected.value.digest == HashOf(text) || Stale(env, base.expected.value, now));
    Judgement(Some(base.(snapshot := text, digest := HashOf(text), machinery := env.machinery,
                         driftSince := None, appliedOnDriftAt := None, expected := SpentIf(base, spent))), Ok, None)
  }

  /** The configuration that was sent shows up. */
  function Lands(env: Env, base: Baseline, m: Machine, snap: Snap, now: int): Judgement {
    if base.driftSince.Some? then
      Judgement(Some(base.(appliedOnDriftAt := if base.appliedOnDriftAt.None? then Some(now) else base.appliedOnDriftAt,
                           expected := None)), Drift, base.driftSince)
    else Judgement(Some(Landed(env, base, m, snap, now)), Ok, None)
  }

  /** Somebody else's change: its start is written once, and an expectation that ran out goes with it. */
  function Drifts(env: Env, base: Baseline, now: int): Judgement {
    var spent := base.expected.Some? && Stale(env, base.expected.value, now);
    var since := if base.driftSince.None? then Some(now) else base.driftSince;
    Judgement(if base.driftSince.None? || spent then Some(base.(driftSince := since, expected := SpentIf(base, spent))) else None,
              Drift, since)
  }

  /** The table, for a baseline that was found. */
  function Judge(env: Env, base: Baseline, m: Machine, snap: Snap, now: int): Judgement {
    if Damaged(base, m.id) then BROKEN
    else if base.digest == snap.digest then SameBytes(env, base, now)
    else if env.normalise(base.snapshot).None? then BROKEN
    else
      var text := env.normalise(base.snapshot).value;
      var same := HashOf(text) == snap.digest;
      if base.expected.Some? && base.expected.value.digest == snap.digest && !same && Adopts(env, base.expected.value, now)
      then Lands(env, base, m, snap, now)
      else if same then SameMeaning(env, base, text, now)
      else if base.expected.Some? && base.driftSince.None? && Settles(env, base.expected.value, now)
      then Judgement(None, Settling, None)
      else Drifts(env, base, now)
  }

  /* What the table says, without its order. */

  /** The baseline can be compared with the reading at all. */
  predicate Comparable(env: Env, base: Baseline, m: Machine, snap: Snap) {
    !Damaged(base, m.id) && (base.digest == snap.digest || env.normalise(base.snapshot).Some?)
  }

  /** The node runs the baseline, in its bytes or in what they mean to the running machinery. */
  predicate IsBaseline(env: Env, base: Baseline, snap: Snap) {
    base.digest == snap.digest || (env.normalise(base.snapshot).Some? && HashOf(env.normalise(base.snapshot).value) == snap.digest)
  }

  /** The node runs what an own apply that still counts has sent. */
  predicate IsOwn(env: Env, base: Baseline, snap: Snap, now: int) {
    base.expected.Some? && base.expected.value.digest == snap.digest && Adopts(env, base.expected.value, now)
  }

  /** An own apply is under way, so that a difference may be it. */
  predicate UnderWay(env: Env, base: Baseline, now: int) {
    base.expected.Some? && Settles(env, base.expected.value, now)
  }

  /**
   Exactly when a reading is what: ok for the baseline, or for an own change with no deviation open;
   settling only while an apply is under way and none is open; drift for everything else that can be
   compared, so no foreign change is missed.
   */
  lemma StateExact(env: Env, base: Baseline, m: Machine, snap: Snap, now: int)
    ensures var state := Judge(env, base, m, snap, now).state;
            var same, own, open := IsBaseline(env, base, snap), IsOwn(env, base, snap, now), base.driftSince.Some?;
            && (state == BaselineDamaged <==> !Comparable(env, base, m, snap))
            && (state == Ok <==> Comparable(env, base, m, snap) && (same || (own && !open)))
            && (state == Settling <==> Comparable(env, base, m, snap) && !same && !own && !open && UnderWay(env, base, now))
            && (state == Drift <==> Comparable(env, base, m, snap) && !same && (open || (!own && !UnderWay(env, base, now))))
  {
  }

  /* The same with every window and every fault of a record written out. */

  /** An expectation that still counts: without end when staged, a day when the node restarts, else the settle window. */
  predicate StillCounts(env: Env, e: Expected, now: int) {
    || e.mode == Staged
    || (e.mode in {Reboot, Auto} && now - e.at < 86_400)
    || (e.mode !in {Staged, Reboot, Auto} && now - e.at < env.settleWindow)
  }

  lemma CountsExactly(env: Env, e: Expected, now: int)
    ensures StillCounts(env, e, now) <==> Adopts(env, e, now)
  {
  }

  /** A record cannot be trusted: another format, nothing in it, a digest of another text, another machine. */
  predicate Unsound(env: Env, base: Baseline, m: Machine, snap: Snap) {
    || base.format != 1 || base.snapshot == "" || base.digest != HashOf(base.snapshot) || base.machine != m.id
    || (base.digest != snap.digest && env.normalise(base.snapshot).None?)
  }

  lemma DamagedExactly(env: Env, base: Baseline, m: Machine, snap: Snap, now: int)
    ensures var j := Judge(env, base, m, snap, now);
            (j.state == BaselineDamaged <==> Unsound(env, base, m, snap)) &&
            (Unsound(env, base, m, snap) ==> j.write.None? && j.since.None?)
  {
  }

  /**
   The configuration that was sent is seen, is not the baseline, and no deviation is open: it lands exactly
   while the expectation still counts.  After that it is a deviation, or for as long as the apply may still be
   settling not told apart from one under way; the deviation drops the expectation.
   */
  lemma LandsExactly(env: Env, base: Baseline, m: Machine, snap: Snap, now: int)
    requires !Unsound(env, base, m, snap) && !IsBaseline(env, base, snap) && base.driftSince.None?
    requires base.expected.Some? && base.expected.value.digest == snap.digest
    ensures var j, e := Judge(env, base, m, snap, now), base.expected.value;
            if StillCounts(env, e, now) then
              && j.state == Ok && j.write.Some?
              && j.write.value.snapshot == snap.text && j.write.value.digest == snap.digest
              && j.write.value.expected.None? && j.write.value.driftSince.None? && j.write.value.appliedOnDriftAt.None?
              && j.write.value.source == Apply && j.write.value.takenAt == now && j.write.value.rev == base.rev
              && j.write.value.machine == base.machine && j.write.value.cluster == m.cluster
              && j.write.value.machinery == env.machinery && j.write.value.format == 1
            else if e.mode != Staged && now - e.at < env.settleWindow then j.state == Settling && j.write.None?
            else
              && j.state == Drift && j.since == Some(now)
              && j.write == Some(base.(driftSince := Some(now), expected := None))
  {
  }

  /** Whatever is written of a record whose expectation has run out no longer has it. */
  lemma ExpiredIsDropped(env: Env, base: Baseline, m: Machine, snap: Snap, now: int)
    requires base.expected.Some? && !StillCounts(env, base.expected.value, now)
    ensures var j := Judge(env, base, m, snap, now);
            (j.write.Some? ==> j.write.value.expected.None?) &&
            (j.state == Drift && base.driftSince.None? ==> j.write.Some?)
  {
  }

  /** A change nobody here sent: settling inside the settle window of an apply that takes effect at once, drift otherwise. */
  lemma ForeignExactly(env: Env, base: Baseline, m: Machine, snap: Snap, now: int)
    requires !Unsound(env, base, m, snap) && !IsBaseline(env, base, snap) && base.driftSince.None?
    requires base.expected.Some? ==> base.expected.value.digest != snap.digest
    ensures var j := Judge(env, base, m, snap, now);
            if base.expected.Some? && base.expected.value.mode != Staged && now - base.expected.value.at < env.settleWindow
            then j == Judgement(None, Settling, None)
            else
              && j.state == Drift && j.since == Some(now) && j.write.Some?
              && j.write.value == base.(driftSince := Some(now), expected := j.write.value.expected)
              && (base.expected.None? || StillCounts(env, base.expected.value, now) ==> j.write.value.expected == base.expected)
  {
  }

  /** While a deviation is open every reading but the baseline is drift since its start; an own apply landing on it is noted once. */
  lemma OpenExactly(env: Env, base: Baseline, m: Machine, snap: Snap, now: int)
    requires !Unsound(env, base, m, snap) && !IsBaseline(env, base, snap) && base.driftSince.Some?
    ensures var j := Judge(env, base, m, snap, now);
            var landing := base.expected.Some? && base.expected.value.digest == snap.digest && StillCounts(env, base.expected.value, now);
            && j.state == Drift && j.since == base.driftSince
            && (landing ==> j.write == Some(base.(expected := None,
                  appliedOnDriftAt := if base.appliedOnDriftAt.Some? then base.appliedOnDriftAt else Some(now))))
            && (!landing && j.write.Some? ==> j.write.value == base.(expected := None))
  {
  }

  /** The node is its baseline again: whatever was open is closed, and nothing else of the record changes but its form. */
  lemma BaselineCloses(env: Env, base: Baseline, m: Machine, snap: Snap, now: int)
    requires !Unsound(env, base, m, snap) && IsBaseline(env, base, snap)
    ensures var j := Judge(env, base, m, snap, now);
            var after := if j.write.Some? then j.write.value else base;
            var e := base.expected;
            && j.state == Ok && j.since.None?
            && after.driftSince.None? && after.appliedOnDriftAt.None?
            && HashOf(after.snapshot) == snap.digest == after.digest
            && (e.Some? ==> (after.expected.None? <==> e.value.digest == snap.digest || !StillCounts(env, e.value, now)))
            && (after.expected.Some? ==> after.expected == e)
            && after.rev == base.rev && after.takenAt == base.takenAt && after.source == base.source && after.cluster == base.cluster
  {
  }

  /** What a judgement writes keeps an open deviation, its baseline and its start, unless the node is the
      baseline again; and it never opens one without saying drift. */
  lemma JudgeKeepsOpenDrift(env: Env, base: Baseline, m: Machine, snap: Snap, now: int)
    ensures var j := Judge(env, base, m, snap, now);
            && (j.write.Some? && base.driftSince.Some? && !IsBaseline(env, base, snap) ==>
                  && j.write.value.driftSince == base.driftSince
                  && j.write.value.snapshot == base.snapshot && j.write.value.digest == base.digest)
            && (j.write.Some? && base.driftSince.None? && j.write.value.driftSince.Some? ==> j.state == Drift && j.write.value.driftSince == Some(now))
            && (j.state == Drift ==> j.since == (if j.write.Some? then j.write.value else base).driftSince && j.since.Some?)
  {
  }

  /** A record that may stand in the store. */
  ghost predicate Sound(env: Env, b: Baseline, id: string) {
    !Damaged(b, id) && env.Clean(b.snapshot) && (b.appliedOnDriftAt.Some? ==> b.driftSince.Some?)
  }

  ghost predicate SnapChecked(env: Env, snap: Snap) {
    env.Clean(snap.text) && snap.digest == HashOf(snap.text)
  }

  lemma JudgeKeepsSound(env: Env, base: Baseline, m: Machine, snap: Snap, now: int)
    requires Sound(env, base, m.id) && SnapChecked(env, snap)
    ensures var j := Judge(env, base, m, snap, now); j.write.Some? ==> Sound(env, j.write.value, m.id)
  {
  }
}
