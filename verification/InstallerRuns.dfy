/**
 What the installer cache keeps over every interleaving of its callers.
 */
module InstallerRuns {
  import opened Wrappers
  import opened InstallerResolve
  import opened InstallerCache

  predicate Legal(c: Cache, steps: seq<Step>)
    decreases |steps|
  {
    steps == [] || (Enabled(c, steps[0]) && Legal(Do(c, steps[0]), steps[1..]))
  }

  function After(c: Cache, steps: seq<Step>): Cache
    requires Legal(c, steps)
    decreases |steps|
  {
    if steps == [] then c else After(Do(c, steps[0]), steps[1..])
  }

  lemma EmptyHolds()
    ensures Inv(EMPTY_CACHE)
  {
  }

  /** Over any run what is cached only moves on: provisional to the same name again or to proven, proven to nothing else. */
  lemma {:induction false} RunKeeps(c: Cache, steps: seq<Step>)
    requires Inv(c) && Legal(c, steps)
    ensures Inv(After(c, steps)) && Onward(c, After(c, steps))
    decreases |steps|
  {
    hide Inv, Do, Enabled, Onward;
    if steps == [] {
      Stays(c);
    } else {
      StepKeeps(c, steps[0]);
      RunKeeps(Do(c, steps[0]), steps[1..]);
      OnwardTwice(c, Do(c, steps[0]), After(c, steps));
    }
  }

  lemma Stays(c: Cache)
    ensures Onward(c, c)
  {
  }

  lemma OnwardTwice(c: Cache, d: Cache, e: Cache)
    requires Onward(c, d) && Onward(d, e)
    ensures Onward(c, e)
  {
    hide Moves;
    forall req | req in c.entries
      ensures req in e.entries && Moves(c.entries[req], e.entries[req])
    {
      MovesOn(c.entries[req], d.entries[req], e.entries[req]);
    }
  }

  /** How often a step of a run puts another name in the place of the one that was cached. */
  function NameChanges(c: Cache, steps: seq<Step>, req: Request): nat
    requires Legal(c, steps)
    decreases |steps|
  {
    if steps == [] then 0
    else
      var d := Do(c, steps[0]);
      (if req in c.entries && req in d.entries && c.entries[req].repo != d.entries[req].repo then 1 else 0) +
      NameChanges(d, steps[1..], req)
  }

  /** The name under a key changes at most once, and not at all once it is proven. */
  lemma {:induction false} NameChangesAtMostOnce(c: Cache, steps: seq<Step>, req: Request)
    requires Inv(c) && Legal(c, steps)
    ensures NameChanges(c, steps, req) <= if req in c.entries && Proven(c.entries[req]) then 0 else 1
    decreases |steps|
  {
    if steps != [] {
      hide Inv, Do, Enabled, GoodEntry;
      StepKeeps(c, steps[0]);
      NameChangesAtMostOnce(Do(c, steps[0]), steps[1..], req);
    }
  }

  /** A proven answer is the answer for ever. */
  lemma ProvenForEver(c: Cache, steps: seq<Step>, req: Request)
    requires Inv(c) && Legal(c, steps) && req in c.entries && Proven(c.entries[req])
    ensures req in After(c, steps).entries && After(c, steps).entries[req] == c.entries[req]
  {
    hide Inv, Legal, After;
    RunKeeps(c, steps);
  }

  /** SecureBoot keys hold SecureBoot names and no others do; a name not proven carries its warning. */
  lemma EntriesKeepToTheirKind(c: Cache, req: Request)
    requires Inv(c) && req in c.entries
    ensures SecureBootName(c.entries[req].repo) <==> req.secureBoot
    ensures c.entries[req].warned <==> !Proven(c.entries[req])
    ensures !Proven(c.entries[req]) ==>
      c.entries[req].repo == Legacy(req) && c.entries[req].unresolved == [Preferred(req)]
  {
    hide FlightOk, CallerOk, TableOk, SecureBootName;
    CachedIsGood(c, req);
    CandidatesKeepToTheirKind(req, c.entries[req].repo);
  }

  /** At most one caller resolves a key from cold, and nothing is cached for the key while it does. */
  lemma SingleFlight(c: Cache, a: nat, b: nat)
    requires Inv(c) && a in c.callers && b in c.callers && c.callers[a].req == c.callers[b].req
    requires c.callers[a].phase.Leading? && c.callers[b].phase.Leading?
    ensures a == b && c.callers[a].req !in c.entries
  {
    hide FlightOk, EntriesOk, TableOk;
    assert CallerOk(c, a) && CallerOk(c, b);
  }

  /** A flight in the map always has its leader at work: no key is blocked for good. */
  lemma FlightsHaveLeaders(c: Cache, req: Request)
    requires Inv(c) && req in c.flights
    ensures c.flights[req] < |c.table|
    ensures var flight := c.table[c.flights[req]];
            flight.leader in c.callers && AtWork(c.callers[flight.leader].phase, c.flights[req]) &&
            flight.removals == 0 && flight.closings == 0
  {
    hide CallerOk, EntriesOk, Holds, Left;
    assert FlightOk(c, req);
    assert TableOk(c, c.flights[req]);
  }

  /** A flight whose leader has gone has been taken out of the map once and closed once, by nobody else. */
  lemma RemovedAndClosedOnce(c: Cache, f: nat)
    requires Inv(c) && f < |c.table|
    ensures c.table[f].removals <= 1 && c.table[f].closings <= 1 && c.table[f].leader in c.callers
    ensures var p := c.callers[c.table[f].leader].phase;
            (c.table[f].closings == 1 <==> p.Done?) && (p.Done? ==> c.table[f].removals == 1)
  {
    hide CallerOk, EntriesOk, Holds, FlightOk;
    assert TableOk(c, f);
  }

  /**
   What a follower gets when the flight it waits for is closed: the entry its leader published, which the
   cache still holds or has moved on from; or the registry's error; and where the leader's own caller had
   left, nothing at all, so that it asks again.  It is served an empty name, and no error, exactly when the
   leader panicked.
   */
  lemma FollowerGets(c: Cache, pid: nat)
    requires Inv(c) && Enabled(c, Wake(pid))
    ensures var flight := c.table[c.callers[pid].phase.f];
            var req := c.callers[pid].req;
            match Do(c, Wake(pid)).callers[pid].phase {
              case Asking => flight.err.Some? && flight.callerGone
              case Done(Failed(e)) => flight.err == Some(e) && !flight.callerGone
              case Done(Served(e)) => flight.err.None? && e == flight.entry && (flight.panicked || ServedOk(c, req, e))
              case _ => false
            }
    ensures Do(c, Wake(pid)).callers[pid].phase == Done(Served(BLANK)) <==> c.table[c.callers[pid].phase.f].panicked
  {
    hide EntriesOk, FlightOk, Left;
    var f := c.callers[pid].phase.f;
    assert CallerOk(c, pid) && TableOk(c, f);
    assert Holds(c, c.table[f], ResultOf(c.table[f]));
    BlankIsNoName(c.callers[pid].req);
  }

  lemma BlankIsNoName(req: Request)
    ensures !GoodEntry(req, BLANK)
  {
    assert Preferred(req) != [] && Legacy(req) != [];
  }

  /** Two callers that were ever served a proven name for one key were served the same one. */
  lemma ProvenServedAlike(c: Cache, a: nat, b: nat)
    requires Inv(c) && a in c.callers && b in c.callers && c.callers[a].req == c.callers[b].req
    requires c.callers[a].phase.Done? && c.callers[a].phase.result.Served?
    requires c.callers[b].phase.Done? && c.callers[b].phase.result.Served?
    requires Proven(c.callers[a].phase.result.entry) && Proven(c.callers[b].phase.result.entry)
    requires c.callers[a].phase.result.entry != BLANK && c.callers[b].phase.result.entry != BLANK
    ensures c.callers[a].phase.result == c.callers[b].phase.result
  {
    hide EntriesOk, FlightOk, TableOk, GoodEntry;
    assert CallerOk(c, a) && CallerOk(c, b);
  }

  /** No caller is ever served an empty name unless a resolution on its key has panicked. */
  lemma ServedNamesAreReal(c: Cache, pid: nat)
    requires Inv(c) && pid in c.callers && c.callers[pid].phase.Done? && c.callers[pid].phase.result.Served?
    ensures c.callers[pid].phase.result.entry.repo in Candidates(c.callers[pid].req) ||
            (c.callers[pid].phase.result.entry == BLANK && SomePanic(c, c.callers[pid].req))
  {
    hide EntriesOk, FlightOk, TableOk;
    assert CallerOk(c, pid);
  }

  /* The same in every state that a run from the empty cache reaches. */

  ghost predicate Leads(c: Cache, pid: nat) {
    pid in c.callers && c.callers[pid].phase.Leading?
  }

  ghost predicate ServedProven(c: Cache, pid: nat) {
    pid in c.callers && c.callers[pid].phase.Done? && c.callers[pid].phase.result.Served? &&
    Proven(c.callers[pid].phase.result.entry) && c.callers[pid].phase.result.entry != BLANK
  }

  /** Single flight, no key blocked, and one proven name a key. */
  lemma EveryRunKeepsFlights(steps: seq<Step>)
    requires Legal(EMPTY_CACHE, steps)
    ensures var c := After(EMPTY_CACHE, steps);
            && (forall a, b :: Leads(c, a) && Leads(c, b) && c.callers[a].req == c.callers[b].req ==>
                  a == b && c.callers[a].req !in c.entries)
            && (forall req :: req in c.flights ==>
                  && c.flights[req] < |c.table|
                  && var flight := c.table[c.flights[req]];
                     flight.leader in c.callers && AtWork(c.callers[flight.leader].phase, c.flights[req]))
            && (forall a, b :: ServedProven(c, a) && ServedProven(c, b) && c.callers[a].req == c.callers[b].req ==>
                  c.callers[a].phase.result == c.callers[b].phase.result)
  {
    hide Inv, Legal, After, Proven, AtWork;
    var c := Reached(steps);
    forall a, b | Leads(c, a) && Leads(c, b) && c.callers[a].req == c.callers[b].req
      ensures a == b && c.callers[a].req !in c.entries
    {
      SingleFlight(c, a, b);
    }
    forall req | req in c.flights
      ensures c.flights[req] < |c.table|
      ensures var flight := c.table[c.flights[req]];
              flight.leader in c.callers && AtWork(c.callers[flight.leader].phase, c.flights[req])
    {
      FlightsHaveLeaders(c, req);
    }
    forall a, b | ServedProven(c, a) && ServedProven(c, b) && c.callers[a].req == c.callers[b].req
      ensures c.callers[a].phase.result == c.callers[b].phase.result
    {
      ProvenServedAlike(c, a, b);
    }
  }

  /** What a follower is served at the end of any run: its leader's entry, and nothing exactly when that one panicked. */
  lemma EveryRunServesFollowers(steps: seq<Step>, pid: nat)
    requires Legal(EMPTY_CACHE, steps) && Enabled(After(EMPTY_CACHE, steps), Wake(pid))
    ensures var c := After(EMPTY_CACHE, steps);
            var flight := c.table[c.callers[pid].phase.f];
            match Do(c, Wake(pid)).callers[pid].phase {
              case Asking => flight.err.Some? && flight.callerGone
              case Done(Failed(e)) => flight.err == Some(e) && !flight.callerGone
              case Done(Served(e)) =>
                flight.err.None? && e == flight.entry && (e == BLANK <==> flight.panicked) &&
                (flight.panicked || ServedOk(c, c.callers[pid].req, e))
              case _ => false
            }
  {
    hide Inv, Legal, After, Do, ServedOk;
    var c := Reached(steps);
    FollowerGets(c, pid);
  }

  lemma Reached(steps: seq<Step>) returns (c: Cache)
    requires Legal(EMPTY_CACHE, steps)
    ensures c == After(EMPTY_CACHE, steps) && Inv(c)
  {
    hide Inv, Legal, After, Onward;
    EmptyHolds();
    RunKeeps(EMPTY_CACHE, steps);
    c := After(EMPTY_CACHE, steps);
  }

  /**
   A re-question that hears nothing keeps the answer and stamps it anew, so that for a whole interval nobody
   asks again; but when only its own caller had left it writes nothing, and an answer that was stale is
   asked about again at once.
   */
  lemma SilenceSetsThePace(c: Cache, pid: nat, answers: seq<Answer>, now: nat, gone: bool, other: nat, then': nat)
    requires Inv(c) && Enabled(c, Requestion(pid, answers, now, gone)) && other != pid
    requires forall i :: 0 <= i < |answers| ==> Unheard(answers[i])
    requires Enabled(c, Ask(other, then')) && c.callers[other].req == c.callers[pid].req
    requires !Proven(c.entries[c.callers[pid].req])
    ensures var req := c.callers[pid].req;
            var d := Do(c, Requestion(pid, answers, now, gone));
            var asked := Do(d, Ask(other, then')).callers[other].phase;
            req in d.entries && d.entries[req].repo == c.entries[req].repo &&
            if gone then
              d.entries == c.entries && (then' >= c.entries[req].at + RETRY_INTERVAL ==> asked.Requestioning?)
            else then' < now + RETRY_INTERVAL ==> asked == Done(Served(d.entries[req]))
  {
    hide FlightOk, TableOk, Holds;
    var entry := c.callers[pid].phase.entry;
    assert CallerOk(c, pid);
    assert GoodEntry(c.callers[pid].req, c.entries[c.callers[pid].req]);
    UnheardAlone(entry.unresolved, answers);
    hide Decision, Inv;
  }

  lemma UnheardAlone(names: seq<string>, answers: seq<Answer>)
    requires |names| == |answers| == 1 && Unheard(answers[0])
    ensures Decision(names, answers).Unavailable?
  {
    assert answers[..0] == [] && names[..0] == [];
  }

  /** The states of a run in which a leader panics while another caller waits for it. */
  function Scene(req: Request, i: nat): Cache {
    var blank := Flight(req, 0, BLANK, None, false, false, 0, 0);
    var lost := blank.(panicked := true);
    match i
    case 0 => EMPTY_CACHE
    case 1 => Cache(map[], map[], [], map[0 := Caller(req, Asking)])
    case 2 => Cache(map[], map[req := 0], [blank], map[0 := Caller(req, Leading(0))])
    case 3 => Cache(map[], map[req := 0], [blank], map[0 := Caller(req, Leading(0)), 1 := Caller(req, Asking)])
    case 4 => Cache(map[], map[req := 0], [blank], map[0 := Caller(req, Leading(0)), 1 := Caller(req, Following(0))])
    case 5 => Cache(map[], map[req := 0], [lost],
                    map[0 := Caller(req, Retiring(0, Panicked)), 1 := Caller(req, Following(0))])
    case 6 => Cache(map[], map[], [lost.(removals := 1)],
                    map[0 := Caller(req, Closing(0, Panicked)), 1 := Caller(req, Following(0))])
    case 7 => Cache(map[], map[], [lost.(removals := 1, closings := 1)],
                    map[0 := Caller(req, Done(Panicked)), 1 := Caller(req, Following(0))])
    case _ => Cache(map[], map[], [lost.(removals := 1, closings := 1)],
                    map[0 := Caller(req, Done(Panicked)), 1 := Caller(req, Done(Served(BLANK)))])
  }

  function Script(req: Request): seq<Step> {
    [Arrive(0, req), Ask(0, 0), Arrive(1, req), Ask(1, 0), Panic(0), Remove(0), Close(0), Wake(1)]
  }

  lemma SceneOpens(req: Request, i: nat)
    requires i < 4
    ensures Enabled(Scene(req, i), Script(req)[i]) && Do(Scene(req, i), Script(req)[i]) == Scene(req, i + 1)
  {
    hide Decision, Reconsidered, Store;
    if i == 0 || i == 2 {
      assert Script(req)[i].Arrive?;
    } else {
      assert Script(req)[i].Ask?;
    }
  }

  lemma SceneEnds(req: Request, i: nat)
    requires 4 <= i < 8
    ensures Enabled(Scene(req, i), Script(req)[i]) && Do(Scene(req, i), Script(req)[i]) == Scene(req, i + 1)
  {
    hide Decision, Reconsidered, Store;
    if i == 5 {
      assert map[req := 0] - {req} == map[];
    } else {
      assert !Script(req)[i].Ask? && !Script(req)[i].Arrive?;
    }
  }

  lemma SceneFollows(req: Request, i: nat)
    requires i < 8
    ensures Enabled(Scene(req, i), Script(req)[i]) && Do(Scene(req, i), Script(req)[i]) == Scene(req, i + 1)
  {
    hide *;
    if i < 4 {
      SceneOpens(req, i);
    } else {
      SceneEnds(req, i);
    }
  }

  lemma {:induction false} ScenesFollow(req: Request, i: nat)
    requires i <= 8
    ensures Legal(Scene(req, i), Script(req)[i..]) && After(Scene(req, i), Script(req)[i..]) == Scene(req, 8)
    decreases 8 - i
  {
    hide Do, Enabled, Scene, Script;
    SceneFollowsAll(req);
    var steps := Script(req)[i..];
    if i < 8 {
      SceneFollows(req, i);
      assert steps[0] == Script(req)[i] && steps[1..] == Script(req)[i + 1..];
      ScenesFollow(req, i + 1);
    }
  }

  lemma SceneFollowsAll(req: Request)
    ensures |Script(req)| == 8
  {
  }

  /** And then it can be: a follower of a leader that panicked is served a name that is no name, and no error. */
  lemma PanicServesNothing(req: Request)
    ensures Legal(EMPTY_CACHE, Script(req))
    ensures var c := After(EMPTY_CACHE, Script(req)); 1 in c.callers && c.callers[1].phase == Done(Served(BLANK))
  {
    hide Legal, After;
    ScenesFollow(req, 0);
    assert Script(req)[0..] == Script(req);
  }
}
