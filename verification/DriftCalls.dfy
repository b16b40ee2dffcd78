/**
 What each call of the service leaves behind, said of the record and the reading it found: a first sight, an
 apply that starts or fails, a confirmation, a reading that fails.
 */
module DriftCalls {
  import opened Wrappers
  import opened DriftTable
  import opened DriftRuns

  /** The same record, perhaps saved again by other writers in between. */
  ghost predicate SameButRev(a: Shelf, b: Shelf) {
    a.Some? && a.value.Kept? && Has(b, a.value.base)
  }

  /** This record, saved with some revision. */
  ghost predicate Has(shelf: Shelf, base: Baseline) {
    shelf.Some? && shelf.value.Kept? && shelf.value.base == base.(rev := shelf.value.base.rev)
  }

  /* Readings. */

  /** A node without a record gets one of what it runs, with nothing open and nothing expected. */
  lemma FirstSightLays(env: Env, m: Machine, node: Node, snap: Snap, now: int, onFailure: Fault)
    requires node.shelf.None? && |snap.text| <= 1_048_576 && !env.unsafe(snap.text)
    ensures var after := Do(env, m, node, Read(snap, now, [Clear], onFailure));
            && after.shelf.Some? && after.shelf.value.Kept?
            && var b := after.shelf.value.base;
               && b.machine == m.id && b.cluster == m.cluster && b.snapshot == snap.text && b.digest == snap.digest
               && b.takenAt == now && b.source == FirstSight && b.format == 1 && b.rev == 1 && b.machinery == env.machinery
               && b.driftSince.None? && b.appliedOnDriftAt.None? && b.expected.None?
               && after.reading == Some(Reading(BaselineCreated, now, Some(now), snap, None))
  {
  }

  /** A text over a mebibyte or with a private key in it is never compared and never stored. */
  lemma UnsafeIsNotJudged(env: Env, m: Machine, node: Node, snap: Snap, now: int, faults: seq<Fault>, onFailure: Fault)
    requires |snap.text| > 1_048_576 || env.unsafe(snap.text)
    ensures var after := Do(env, m, node, Read(snap, now, faults, onFailure));
            && after.shelf == node.shelf && after.reading == node.reading
            && |after.pending| == |node.pending| + 1 && after.pending[|node.pending|].state == Unreadable
  {
  }

  /** A record that cannot be read or decoded is said to be damaged, and is not written over. */
  lemma UnreadableIsKept(env: Env, m: Machine, node: Node, snap: Snap, now: int, faults: seq<Fault>, onFailure: Fault)
    requires |snap.text| <= 1_048_576 && !env.unsafe(snap.text)
    requires faults != [] && (faults[0].GetFails? || node.shelf == Some(Illegible))
    ensures var after := Do(env, m, node, Read(snap, now, faults, onFailure));
            after.shelf == node.shelf && after.reading == Some(Reading(BaselineDamaged, now, Some(now), snap, None))
  {
  }

  /** A reading that fails is shown as that, keeps the last good one, and takes a deviation's start from the record. */
  lemma FailureKeepsTheGood(env: Env, m: Machine, node: Node, now: int, onFailure: Fault)
    requires node.pending == []
    ensures var after := Do(env, m, Do(env, m, node, ReadFails(now, onFailure)), FailureShows(0));
            && after.shelf == node.shelf && after.pending == [] && after.reading.Some?
            && var shown, known := after.reading.value, !onFailure.GetFails? && node.shelf.Some? && node.shelf.value.Kept?;
               && shown.state == Unreadable && shown.at == now
               && (node.reading.Some? ==> shown.lastGood == node.reading.value.lastGood && shown.snap == node.reading.value.snap)
               && (node.reading.None? ==> shown.lastGood.None?)
               && (known ==> shown.since == node.shelf.value.base.driftSince)
               && (!known ==> shown.since == if node.reading.Some? then node.reading.value.since else None)
  {
  }

  /* Applies. */

  /**
   An apply that starts leaves its expectation in a record that can be trusted and changes nothing else of it,
   or leaves the record alone; it fails to only when the store does, or there is no such record.
   */
  lemma {:induction false} ExpectExactly(m: Machine, shelf: Shelf, exp: Expected, faults: seq<Fault>)
    requires Spared(faults)
    ensures var (after, stored) := Expect(shelf, m.id, exp, faults);
            var usable := shelf.Some? && shelf.value.Kept? && shelf.value.base.format == 1 && shelf.value.base.snapshot != ""
              && shelf.value.base.digest == HashOf(shelf.value.base.snapshot) && shelf.value.base.machine == m.id;
            && (stored ==> usable && Has(after, shelf.value.base.(expected := Some(exp))))
            && (!stored ==> after == shelf || SameButRev(shelf, after))
            && (usable && Reaches(faults) ==> stored)
    decreases |faults|
  {
    if faults != [] && faults[0].Overtaken? && Get(shelf, faults[0]).Found? && !Damaged(shelf.value.base, m.id) {
      var next := FaultyPut(shelf, shelf.value.base.(expected := Some(exp)), faults[0]).0;
      assert next == Some(Kept(shelf.value.base.(rev := shelf.value.base.rev + 1)));
      ExpectExactly(m, next, exp, faults[1..]);
    }
  }

  /** The expectation of this apply: what was sent and when it was sent. */
  ghost predicate Holds(shelf: Shelf, exp: Expected) {
    && shelf.Some? && shelf.value.Kept? && shelf.value.base.expected.Some?
    && shelf.value.base.expected.value.digest == exp.digest && shelf.value.base.expected.value.at == exp.at
  }

  /**
   An apply that failed takes back its own expectation and no other, whatever goes wrong: any other stays as it
   is, and of the record nothing else is touched.  Once an attempt goes through its own is gone.
   */
  lemma {:induction false} UnexpectExactly(shelf: Shelf, exp: Expected, faults: seq<Fault>)
    requires Spared(faults)
    ensures var after := Unexpect(shelf, exp, faults);
            && (!Holds(shelf, exp) ==> after == shelf)
            && (Holds(shelf, exp) ==> SameButRev(shelf, after) || Has(after, shelf.value.base.(expected := None)))
            && (Holds(shelf, exp) && Reaches(faults) ==> after.value.base.expected.None?)
    decreases |faults|
  {
    if faults != [] && faults[0].Overtaken? && Holds(shelf, exp) {
      var next := FaultyPut(shelf, shelf.value.base.(expected := None), faults[0]).0;
      assert next == Some(Kept(shelf.value.base.(rev := shelf.value.base.rev + 1)));
      UnexpectExactly(next, exp, faults[1..]);
    }
  }

  /** A later apply whose expectation is laid down in the middle of it keeps it. */
  lemma LaterApplyKeepsItsOwn(shelf: Shelf, exp: Expected, laid: Baseline, more: seq<Fault>)
    requires Holds(shelf, exp) && laid.expected.Some?
    requires laid.expected.value.digest != exp.digest || laid.expected.value.at != exp.at
    ensures Unexpect(shelf, exp, [Replaced(laid)] + more) == Some(Kept(laid.(rev := shelf.value.base.rev + 1)))
  {
    var faults := [Replaced(laid)] + more;
    assert faults[1..] == more;
    var next := Some(Kept(laid.(rev := shelf.value.base.rev + 1)));
    assert FaultyPut(shelf, shelf.value.base.(expected := None), faults[0]) == (next, Conflict);
    assert Unexpect(shelf, exp, faults) == Unexpect(next, exp, more);
  }

  /* Confirmations. */

  /** Sixty-four lower-case hexadecimal digits; the hash of a text always is. */
  predicate LooksLikeDigest(d: Digest) {
    d.HashOf? || (|d.chars| == 64 && forall i :: 0 <= i < 64 ==> '0' <= d.chars[i] <= '9' || 'a' <= d.chars[i] <= 'f')
  }

  /** What an operator can be told before anything is written: not read, no drift, another digest, in this order. */
  lemma ConfirmRefusesExactly(env: Env, shelf: Shelf, m: Machine, reading: Option<Reading>, digest: Digest, now: int, faults: seq<Fault>)
    requires faults != []
    ensures var (after, answer) := Confirm(env, shelf, m, reading, digest, now, faults);
            if reading.None? || reading.value.state == Unreadable then after == shelf && answer == Refused(NotRead)
            else if reading.value.state != Drift then after == shelf && answer == Refused(NoDrift)
            else if !LooksLikeDigest(digest) || digest != reading.value.snap.digest then
              after == shelf && answer == Refused(DigestChanged)
            else !answer.Refused?
    decreases |faults|
  {
    assert IsDigest(digest) <==> LooksLikeDigest(digest) by {
      if digest.OtherText? {
        assert forall i :: 0 <= i < |digest.chars| ==> digest.chars[i] in digest.chars;
      }
    }
    if Confirmable(reading, digest).None? {
      NeverRefusedThen(env, shelf, m, reading, digest, now, faults);
    }
  }

  lemma {:induction false} NeverRefusedThen(env: Env, shelf: Shelf, m: Machine, reading: Option<Reading>, digest: Digest, now: int, faults: seq<Fault>)
    requires Confirmable(reading, digest).None?
    ensures !Confirm(env, shelf, m, reading, digest, now, faults).1.Refused?
    decreases |faults|
  {
    if faults != [] {
      var got := Get(shelf, faults[0]);
      var rec := ConfirmedOf(env, m, reading.value.snap, if got.Found? then got.base.rev else 0, now);
      var (after, answer) := FaultyPut(shelf, rec, faults[0]);
      if answer.Conflict? {
        NeverRefusedThen(env, after, m, reading, digest, now, faults[1..]);
      }
    }
  }

  /**
   What the operator saw can be confirmed: with the digest that was shown it succeeds once an attempt goes
   through, unless the record cannot be trusted, which it never repairs.
   */
  lemma {:induction false} ConfirmSucceeds(env: Env, shelf: Shelf, m: Machine, reading: Reading, now: int, faults: seq<Fault>)
    requires reading.state == Drift && LooksLikeDigest(reading.snap.digest) && Reaches(faults) && Spared(faults)
    requires forall f :: f in faults && f.Overtaken? ==> !Damaged(f.laid, m.id)
    ensures var (after, answer) := Confirm(env, shelf, m, Some(reading), reading.snap.digest, now, faults);
            if shelf == Some(Illegible) then after == shelf && answer == CannotLoad
            else if shelf.Some? && Damaged(shelf.value.base, m.id) then after == shelf && answer == DamagedBaseline
            else
              && answer == Done && after.Some? && after.value.Kept?
              && after.value.base == Baseline(m.id, after.value.base.rev, 1, m.cluster, reading.snap.text, reading.snap.digest, now,
                                              Confirmed, env.machinery, None, None, None)
    decreases |faults|
  {
    var digest := reading.snap.digest;
    assert IsDigest(digest) by {
      if digest.OtherText? {
        forall c | c in digest.chars
          ensures HexDigit(c)
        {
          var i :| 0 <= i < |digest.chars| && digest.chars[i] == c;
        }
      }
    }
    var got := Get(shelf, faults[0]);
    if !got.Failed? && (got.Found? ==> !Damaged(got.base, m.id)) && faults[0].Overtaken? {
      var rec := ConfirmedOf(env, m, reading.snap, if got.Found? then got.base.rev else 0, now);
      var (next, answer) := FaultyPut(shelf, rec, faults[0]);
      assert answer == Conflict && next.Some? && next.value.Kept? && !Damaged(next.value.base, m.id);
      ConfirmSucceeds(env, next, m, reading, now, faults[1..]);
    }
  }

  /** Afterwards the node is shown as ok, with the reading it was confirmed from. */
  lemma ConfirmedShowsOk(env: Env, m: Machine, node: Node, digest: Digest, now: int, faults: seq<Fault>)
    requires Succeeds(env, m, node, Confirms(digest, now, faults))
    ensures var after := Do(env, m, node, Confirms(digest, now, faults));
            node.reading.Some? && after.reading == Some(node.reading.value.(state := Ok, since := None))
  {
    hide Confirm;
    DoneNeedsDrift(env, node.shelf, m, node.reading, digest, now, faults);
  }
}
