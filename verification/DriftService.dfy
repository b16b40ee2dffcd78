/** The service that reads nodes and keeps their baselines, call by call. */
module DriftService {
  import opened Wrappers
  import opened DriftTable
  import opened DriftRuns

  /** A call with nothing else going on at the same time: a failed reading shows at once. */
  function Alone(env: Env, m: Machine, node: Node, step: Step): Node {
    var after := Do(env, m, node, step);
    if after.pending == [] then after else Do(env, m, after, FailureShows(0))
  }

  lemma AloneRead(env: Env, m: Machine, node: Node, snap: Snap, now: int, faults: seq<Fault>, onFailure: Fault)
    requires node.pending == []
    ensures Alone(env, m, node, Read(snap, now, faults, onFailure))
         == if !Storable(env, snap) then node.(reading := Some(FailedReading(node.reading, node.shelf, onFailure, now)))
            else match Decide(env, node.shelf, m, snap, now, faults)
              case (shelf, Compared(state, since)) => Node(shelf, Some(Reading(state, now, Some(now), snap, since)), [])
              case (shelf, Untold) => Node(shelf, Some(FailedReading(node.reading, shelf, onFailure, now)), [])
  {
    hide Decide, FailedReading;
  }

  class Service {
    const env: Env
    var entries: map<string, Entry>
    var readings: map<string, Reading>

    constructor (env: Env)
      ensures this.env == env && entries == map[] && readings == map[]
    {
      this.env := env;
      entries, readings := map[], map[];
    }

    /** The daemon comes up again: what is stored stays, what was held in memory is gone. */
    constructor Restart(before: Service)
      ensures env == before.env && entries == before.entries && readings == map[]
    {
      env := before.env;
      entries, readings := before.entries, map[];
    }

    function ShelfOf(id: string): Shelf
      reads this
    {
      if id in entries then Some(entries[id]) else None
    }

    function NodeOf(id: string): Node
      reads this
    {
      Node(ShelfOf(id), if id in readings then Some(readings[id]) else None, [])
    }

    /** Nothing is changed but what belongs to one machine. */
    twostate predicate OnlyChanges(id: string)
      reads this
    {
      forall other :: other != id ==> NodeOf(other) == old(NodeOf(other))
    }

    /** Stores a record if its revision is the stored one. */
    method StorePut(id: string, rec: Baseline, fault: Fault) returns (answer: PutAnswer)
      modifies this`entries
      ensures (ShelfOf(id), answer) == FaultyPut(old(ShelfOf(id)), rec, fault)
      ensures fault.Clear? ==>
        match old(ShelfOf(id)) {
          case None => if rec.rev == 0 then answer == Saved(rec.(rev := 1)) else answer == Conflict
          case Some(Kept(cur)) => if rec.rev == cur.rev then answer == Saved(rec.(rev := cur.rev + 1)) else answer == Conflict
          case Some(Illegible) => answer == NotSaved
        }
      ensures fault.Clear? ==> ShelfOf(id) == if answer.Saved? then Some(Kept(answer.base)) else old(ShelfOf(id))
      ensures OnlyChanges(id)
    {
      if fault.PutFails? {
        return NotSaved;
      }
      if fault.Overtaken? {
        if id !in entries {
          entries := entries[id := Kept(fault.laid.(rev := 1))];
        } else if entries[id].Kept? {
          var cur := entries[id].base;
          entries := entries[id := Kept(cur.(rev := cur.rev + 1))];
        }
      } else if fault.Replaced? && !(id in entries && entries[id].Illegible?) {
        entries := entries[id := Kept(fault.laid.(rev := if id in entries then entries[id].base.rev + 1 else 1))];
      }
      if id !in entries {
        if rec.rev != 0 {
          return Conflict;
        }
      } else if entries[id].Illegible? {
        return NotSaved;
      } else if rec.rev != entries[id].base.rev {
        return Conflict;
      }
      var saved := rec.(rev := rec.rev + 1);
      entries := entries[id := Kept(saved)];
      return Saved(saved);
    }

    method Record(m: Machine, state: State, now: int, snap: Snap, since: Option<int>)
      modifies this`readings
      ensures readings == old(readings)[m.id := Reading(state, now, Some(now), snap, since)]
    {
      readings := readings[m.id := Reading(state, now, Some(now), snap, since)];
    }

    method ReadFailed(m: Machine, now: int, onFailure: Fault)
      modifies this`readings
      ensures readings == old(readings)[m.id := FailedReading(old(NodeOf(m.id)).reading, ShelfOf(m.id), onFailure, now)]
    {
      var next := if m.id in readings then readings[m.id] else Reading(Unreadable, now, None, NO_SNAP, None);
      var got := Get(ShelfOf(m.id), onFailure);
      if got.Found? {
        next := next.(since := got.base.driftSince);
      }
      readings := readings[m.id := next.(state := Unreadable, at := now)];
    }

    /** How the write of a judged reading ended. */
    method SaveJudged(m: Machine, rec: Baseline, state: State, now: int, snap: Snap, since: Option<int>, fault: Fault, onFailure: Fault)
      returns (answer: PutAnswer)
      modifies this
      ensures OnlyChanges(m.id)
      ensures (ShelfOf(m.id), answer) == FaultyPut(old(ShelfOf(m.id)), rec, fault)
      ensures answer.Conflict? ==> readings == old(readings)
      ensures answer.Saved? ==> readings == old(readings)[m.id := Reading(state, now, Some(now), snap, since)]
      ensures answer.NotSaved? ==>
                readings == old(readings)[m.id := FailedReading(old(NodeOf(m.id)).reading, ShelfOf(m.id), onFailure, now)]
    {
      answer := StorePut(m.id, rec, fault);
      if answer.NotSaved? {
        ReadFailed(m, now, onFailure);
      } else if answer.Saved? {
        Record(m, state, now, snap, since);
      }
    }

    /**
     One attempt at judging a reading against the baseline that was found: an answer of Conflict asks for
     another one, any other has been recorded.
     */
    method JudgeOnce(m: Machine, base': Baseline, snap: Snap, now: int, fault: Fault, onFailure: Fault) returns (answer: PutAnswer)
      modifies this
      ensures OnlyChanges(m.id)
      ensures var j := Judge(env, base', m, snap, now);
              && (ShelfOf(m.id), answer) == (if j.write.None? then (old(ShelfOf(m.id)), Saved(base')) else FaultyPut(old(ShelfOf(m.id)), j.write.value, fault))
              && (answer.Conflict? ==> readings == old(readings))
              && (answer.Saved? ==> readings == old(readings)[m.id := Reading(j.state, now, Some(now), snap, j.since)])
              && (answer.NotSaved? ==> readings == old(readings)[m.id := FailedReading(old(NodeOf(m.id)).reading, ShelfOf(m.id), onFailure, now)])
    {
      var base := base';
      var exp := base.expected;
      if Damaged(base, m.id) {
        Record(m, BaselineDamaged, now, snap, None);
        return Saved(base');
      }
      if base.digest != snap.digest {
        var renormalised := env.normalise(base.snapshot);
        if renormalised.None? {
          Record(m, BaselineDamaged, now, snap, None);
          return Saved(base');
        }
        var sameAsBaseline := HashOf(renormalised.value) == snap.digest;

        if exp.Some? && exp.value.digest == snap.digest && !sameAsBaseline && Adopts(env, exp.value, now) {
          if base.driftSince.Some? {
            if base.appliedOnDriftAt.None? {
              base := base.(appliedOnDriftAt := Some(now));
            }
            base := base.(expected := None);
            answer := SaveJudged(m, base, Drift, now, snap, base.driftSince, fault, onFailure);
            return;
          }
          answer := SaveJudged(m, Landed(env, base, m, snap, now), Ok, now, snap, None, fault, onFailure);
          return;
        }

        if sameAsBaseline {
          base := base.(snapshot := renormalised.value, digest := HashOf(renormalised.value), machinery := env.machinery);
          base := base.(driftSince := None, appliedOnDriftAt := None);
          if exp.Some? && (exp.value.digest == snap.digest || Stale(env, exp.value, now)) {
            base := base.(expected := None);
          }
          answer := SaveJudged(m, base, Ok, now, snap, None, fault, onFailure);
          return;
        }

        if exp.Some? && base.driftSince.None? && Settles(env, exp.value, now) {
          Record(m, Settling, now, snap, None);
          return Saved(base');
        }

        var spent := exp.Some? && Stale(env, exp.value, now);
        if base.driftSince.None? || spent {
          if base.driftSince.None? {
            base := base.(driftSince := Some(now));
          }
          if spent {
            base := base.(expected := None);
          }
          answer := SaveJudged(m, base, Drift, now, snap, base.driftSince, fault, onFailure);
          return;
        }
        Record(m, Drift, now, snap, base.driftSince);
        return Saved(base');
      }

      var spent := exp.Some? && (exp.value.digest == base.digest || Stale(env, exp.value, now));
      if base.driftSince.Some? || base.appliedOnDriftAt.Some? || spent {
        base := base.(driftSince := None, appliedOnDriftAt := None);
        if spent {
          base := base.(expected := None);
        }
        answer := SaveJudged(m, base, Ok, now, snap, None, fault, onFailure);
        return;
      }
      Record(m, Ok, now, snap, None);
      return Saved(base');
    }

    /** One successful reading, judged again after each lost compare-and-swap. */
    method DecideReading(m: Machine, snap: Snap, now: int, faults: seq<Fault>, onFailure: Fault) returns (compared: bool)
      modifies this
      ensures NodeOf(m.id) == Alone(env, m, old(NodeOf(m.id)), Read(snap, now, faults, onFailure)) && OnlyChanges(m.id)
    {
      hide Judge, FaultyPut, Do, FailedReading;
      ghost var start := NodeOf(m.id);
      AloneRead(env, m, start, snap, now, faults, onFailure);
      if |snap.text| > MAX_SNAPSHOT || env.unsafe(snap.text) {
        ReadFailed(m, now, onFailure);
        return false;
      }
      var i := 0;
      while i < |faults|
        invariant 0 <= i <= |faults|
        invariant Decide(env, ShelfOf(m.id), m, snap, now, faults[i..]) == Decide(env, start.shelf, m, snap, now, faults)
        invariant readings == old(readings) && OnlyChanges(m.id)
      {
        assert faults[i..][0] == faults[i] && faults[i..][1..] == faults[i + 1..];
        var got := Get(ShelfOf(m.id), faults[i]);
        if got.Failed? {
          Record(m, BaselineDamaged, now, snap, None);
          return false;
        }
        var answer;
        if got.Missing? {
          answer := SaveJudged(m, FirstSightOf(env, m, snap, now), BaselineCreated, now, snap, None, faults[i], onFailure);
        } else {
          answer := JudgeOnce(m, got.base, snap, now, faults[i], onFailure);
        }
        if !answer.Conflict? {
          return answer.Saved? && readings[m.id].state != BaselineDamaged;
        }
        i := i + 1;
      }
      ReadFailed(m, now, onFailure);
      return false;
    }

    /** What a configuration about to be sent leaves in the baseline: nothing for one that returns by itself or
        has no snapshot, an expectation for any other. */
    method ApplyStarts(id: string, raw: string, mode: Mode, now: int, faults: seq<Fault>) returns (exp: Option<Expected>)
      modifies this`entries
      ensures OnlyChanges(id)
      ensures var snap := env.normalise(raw);
              if mode == Other("try") || snap.None? then exp.None? && entries == old(entries)
              else var e := Expected(HashOf(snap.value), mode, now);
                   && ShelfOf(id) == Expect(old(ShelfOf(id)), id, e, faults).0
                   && exp == if Expect(old(ShelfOf(id)), id, e, faults).1 then Some(e) else None
    {
      if mode == Other("try") {
        return None;
      }
      var snap := env.normalise(raw);
      if snap.None? {
        return None;
      }
      var e := Expected(HashOf(snap.value), mode, now);
      ghost var start := ShelfOf(id);
      var i := 0;
      while i < |faults|
        invariant 0 <= i <= |faults| && OnlyChanges(id)
        invariant Expect(ShelfOf(id), id, e, faults[i..]) == Expect(start, id, e, faults)
      {
        assert faults[i..][0] == faults[i] && faults[i..][1..] == faults[i + 1..];
        var got := Get(ShelfOf(id), faults[i]);
        if !got.Found? || Damaged(got.base, id) {
          return None;
        }
        var answer := StorePut(id, got.base.(expected := Some(e)), faults[i]);
        if !answer.Conflict? {
          return if answer.Saved? then Some(e) else None;
        }
        i := i + 1;
      }
      return None;
    }

    /** A refused or failed apply takes its own expectation back. */
    method ApplyFailed(id: string, e: Expected, faults: seq<Fault>)
      modifies this`entries
      ensures OnlyChanges(id) && ShelfOf(id) == Unexpect(old(ShelfOf(id)), e, faults)
    {
      ghost var start := ShelfOf(id);
      var i := 0;
      while i < |faults|
        invariant 0 <= i <= |faults| && OnlyChanges(id)
        invariant Unexpect(ShelfOf(id), e, faults[i..]) == Unexpect(start, e, faults)
      {
        assert faults[i..][0] == faults[i] && faults[i..][1..] == faults[i + 1..];
        var got := Get(ShelfOf(id), faults[i]);
        if !got.Found? {
          return;
        }
        var base := got.base;
        if base.expected.None? || base.expected.value.digest != e.digest || base.expected.value.at != e.at {
          return;
        }
        var answer := StorePut(id, base.(expected := None), faults[i]);
        if !answer.Conflict? {
          return;
        }
        i := i + 1;
      }
    }

    /** The operator accepts what was shown, named by its digest. */
    method ConfirmDrift(m: Machine, digest: Digest, now: int, faults: seq<Fault>) returns (answer: Answer)
      requires |faults| > 0
      modifies this
      ensures OnlyChanges(m.id)
      ensures NodeOf(m.id) == Do(env, m, old(NodeOf(m.id)), Confirms(digest, now, faults))
      ensures answer == Confirm(env, old(ShelfOf(m.id)), m, old(NodeOf(m.id)).reading, digest, now, faults).1
    {
      hide FaultyPut, Damaged, ConfirmedOf, MarkedConfirmed;
      ghost var start, reading := ShelfOf(m.id), NodeOf(m.id).reading;
      var i := 0;
      while i < |faults|
        invariant 0 <= i <= |faults| && OnlyChanges(m.id) && readings == old(readings)
        invariant Confirm(env, ShelfOf(m.id), m, reading, digest, now, faults[i..]) == Confirm(env, start, m, reading, digest, now, faults)
      {
        assert faults[i..][0] == faults[i] && faults[i..][1..] == faults[i + 1..];
        var refusal := Confirmable(NodeOf(m.id).reading, digest);
        if refusal.Some? {
          return Refused(refusal.value);
        }
        var got := Get(ShelfOf(m.id), faults[i]);
        if got.Failed? {
          return CannotLoad;
        }
        if got.Found? && Damaged(got.base, m.id) {
          return DamagedBaseline;
        }
        var rec := ConfirmedOf(env, m, readings[m.id].snap, if got.Found? then got.base.rev else 0, now);
        var put := StorePut(m.id, rec, faults[i]);
        if put.NotSaved? {
          return CannotStore;
        }
        if put.Saved? {
          readings := readings[m.id := MarkedConfirmed(readings[m.id])];
          return Done;
        }
        i := i + 1;
      }
      return Contended;
    }

    /** Drops the record and the reading of one machine; a record that cannot be removed stays. */
    method Forget(id: string, stuck: bool)
      modifies this
      ensures NodeOf(id).reading == None && OnlyChanges(id)
      ensures ShelfOf(id) == if stuck then old(ShelfOf(id)) else None
    {
      if !stuck {
        entries := entries - {id};
      }
      readings := readings - {id};
    }

    /**
     Clears up after machines that are gone or moved.  One record that cannot be decoded stops it all; a machine
     whose record cannot be removed keeps its reading.
     */
    method Reconcile(machines: map<string, string>, stuck: set<string>)
      modifies this
      ensures if exists id :: id in old(entries) && old(entries)[id].Illegible? then entries == old(entries) && readings == old(readings)
              else && entries == old(entries) - (Strays(old(entries), old(entries).Keys, machines) - stuck)
                   && readings == old(readings) - (Strays(old(entries), old(entries).Keys, machines) - stuck)
    {
      hide Strays, Stays;
      if exists id :: id in entries && entries[id].Illegible? {
        return;
      }
      var listed, left := entries, entries.Keys;
      ghost var shown, gone := readings, {};
      NoStrays(listed, machines);
      assert listed.Keys - left == {};
      while left != {}
        invariant left <= listed.Keys
        invariant gone == Strays(listed, listed.Keys - left, machines) - stuck
        invariant entries == listed - gone && readings == shown - gone
        decreases left
      {
        var id :| id in left;
        var machine := listed[id].base.machine;
        StraysMore(listed, listed.Keys - left, id, machines, stuck);
        assert listed.Keys - (left - {id}) == (listed.Keys - left) + {id};
        left := left - {id};
        if !Stays(listed[id], machines) && machine !in stuck {
          LessAndLess(listed, gone, machine);
          LessAndLess(shown, gone, machine);
          gone := gone + {machine};
          entries, readings := entries - {machine}, readings - {machine};
        }
      }
      assert listed.Keys - left == listed.Keys;
    }
  }

  lemma NoStrays(entries: map<string, Entry>, machines: map<string, string>)
    ensures Strays(entries, {}, machines) == {}
  {
  }

  lemma LessAndLess<V>(m: map<string, V>, gone: set<string>, id: string)
    ensures m - gone - {id} == m - (gone + {id})
  {
  }

  /** The machine a record names is in the inventory, in the cluster the baseline was taken in. */
  predicate Stays(e: Entry, machines: map<string, string>) {
    e.Kept? && e.base.machine in machines && machines[e.base.machine] == e.base.cluster
  }

  /** The machines to clear up after, by the names in the records and not by the names of the files. */
  function Strays(entries: map<string, Entry>, ids: set<string>, machines: map<string, string>): set<string>
    requires ids <= entries.Keys
  {
    set id | id in ids && entries[id].Kept? && !Stays(entries[id], machines) :: entries[id].base.machine
  }

  lemma StraysMore(entries: map<string, Entry>, ids: set<string>, id: string, machines: map<string, string>, stuck: set<string>)
    requires ids <= entries.Keys && id in entries && entries[id].Kept?
    ensures Strays(entries, ids + {id}, machines) - stuck
         == if Stays(entries[id], machines) || entries[id].base.machine in stuck then Strays(entries, ids, machines) - stuck
            else (Strays(entries, ids, machines) - stuck) + {entries[id].base.machine}
  {
    hide Stays;
    var more := if Stays(entries[id], machines) then {} else {entries[id].base.machine};
    forall m | m in Strays(entries, ids, machines) + more ensures m in Strays(entries, ids + {id}, machines) {
      if m !in Strays(entries, ids, machines) {
        assert id in ids + {id} && m == entries[id].base.machine;
      }
    }
  }

  /**
   A record outlasts the clean-up exactly when no record lying anywhere names its machine and is out of date.
   Where records lie under their own names that is: exactly when its machine is there and in its cluster.
   */
  lemma ClearsExactly(entries: map<string, Entry>, machines: map<string, string>, id: string)
    requires id in entries && entries[id].Kept?
    requires forall other :: other in entries && entries[other].Kept? && entries[other].base.machine == id ==> other == id
    requires entries[id].base.machine == id
    ensures id in entries - Strays(entries, entries.Keys, machines) <==>
            id in machines && machines[id] == entries[id].base.cluster
  {
    var all := Strays(entries, entries.Keys, machines);
    if !Stays(entries[id], machines) {
      assert entries[id].base.machine in all;
    }
  }
}
