/**
 The cache of installer repository names, as a protocol between callers that share a mutex: one cold
 resolution a key at a time, everyone else waiting for it, and re-questions of provisional answers that
 are not kept apart at all.  A step is what one caller does while it holds the mutex, or the closing of a
 channel.
 */
module InstallerCache {
  import opened Wrappers
  import opened InstallerResolve

  /** A cached answer; `unresolved` are the names it never ruled out, `warned` that it says so. */
  datatype Entry = Entry(repo: string, unresolved: seq<string>, warned: bool, at: nat)

  predicate Proven(e: Entry) { e.unresolved == [] }

  /** What a flight holds before anything has been written to it. */
  const BLANK := Entry("", [], false, 0)

  datatype Error = NoInstaller | Upstream(last: string) | OwnContext

  datatype Outcome = Served(entry: Entry) | Failed(err: Error) | Panicked

  /** One cold resolution: `removals` and `closings` count what has been done to it. */
  datatype Flight = Flight(
    req: Request, leader: nat, entry: Entry, err: Option<Error>, callerGone: bool, panicked: bool,
    removals: nat, closings: nat)

  datatype Phase =
    | Asking
    | Leading(f: nat)
    | Retiring(f: nat, result: Outcome)
    | Closing(f: nat, result: Outcome)
    | Following(f: nat)
    | Requestioning(entry: Entry)
    | Done(result: Outcome)

  datatype Caller = Caller(req: Request, phase: Phase)

  /** entries and flights are the two maps under the mutex; table holds every flight there ever was. */
  datatype Cache = Cache(
    entries: map<Request, Entry>, flights: map<Request, nat>, table: seq<Flight>, callers: map<nat, Caller>)

  const EMPTY_CACHE := Cache(map[], map[], [], map[])

  /** How long a provisional answer is served before the question is asked again, in seconds. */
  const RETRY_INTERVAL := 300

  datatype Step =
    | Arrive(pid: nat, req: Request)
    | Ask(pid: nat, now: nat)
    | Resolve(pid: nat, answers: seq<Answer>, now: nat, gone: bool)
    | Panic(pid: nat)
    | Remove(pid: nat)
    | Close(pid: nat)
    | Wake(pid: nat)
    | Leave(pid: nat)
    | Requestion(pid: nat, answers: seq<Answer>, now: nat, gone: bool)

  predicate InPhase(c: Cache, pid: nat, p: Phase -> bool) {
    pid in c.callers && p(c.callers[pid].phase)
  }

  predicate Enabled(c: Cache, s: Step) {
    match s
    case Arrive(pid, req) => pid !in c.callers
    case Ask(pid, now) => InPhase(c, pid, (p: Phase) => p.Asking?)
    case Resolve(pid, answers, now, gone) =>
      InPhase(c, pid, (p: Phase) => p.Leading? && p.f < |c.table|) && |answers| == |Candidates(c.callers[pid].req)|
    case Panic(pid) => InPhase(c, pid, (p: Phase) => p.Leading? && p.f < |c.table|)
    case Remove(pid) => InPhase(c, pid, (p: Phase) => p.Retiring? && p.f < |c.table|)
    case Close(pid) => InPhase(c, pid, (p: Phase) => p.Closing? && p.f < |c.table|)
    case Wake(pid) => InPhase(c, pid, (p: Phase) => p.Following? && p.f < |c.table| && c.table[p.f].closings > 0)
    case Leave(pid) => InPhase(c, pid, (p: Phase) => p.Following?)
    case Requestion(pid, answers, now, gone) =>
      InPhase(c, pid, (p: Phase) => p.Requestioning? && |answers| == |p.entry.unresolved|)
  }

  function Turn(c: Cache, pid: nat, p: Phase): Cache
    requires pid in c.callers
  {
    c.(callers := c.callers[pid := c.callers[pid].(phase := p)])
  }

  /** A proven entry is never overwritten; whoever loses to one is handed it. */
  function Store(c: Cache, req: Request, next: Entry): (r: (Cache, Entry))
  {
    if req in c.entries && Proven(c.entries[req]) then (c, c.entries[req])
    else (c.(entries := c.entries[req := next]), next)
  }

  function EntryOf(r: Resolution, now: nat): Entry
    requires r.Resolved?
  {
    Entry(r.repo, r.unresolved, r.unresolved != [], now)
  }

  function ErrorOf(r: Resolution): Error
    requires !r.Resolved?
  {
    match r
    case NotBuildable(_) => NoInstaller
    case Unavailable(last) => Upstream(last)
  }

  /** What a re-question makes of the entry it started from; None when nothing is to be written. */
  function Reconsidered(entry: Entry, r: Resolution, now: nat, gone: bool): Option<Entry> {
    match r
    case Resolved(_, _) => Some(EntryOf(r, now))
    case NotBuildable(_) => Some(Entry(entry.repo, [], false, now))
    case Unavailable(_) => if gone then None else Some(entry.(at := now))
  }

  function Do(c: Cache, s: Step): Cache
    requires Enabled(c, s)
  {
    match s
    case Arrive(pid, req) => c.(callers := c.callers[pid := Caller(req, Asking)])
    case Ask(pid, now) =>
      var req := c.callers[pid].req;
      if req in c.entries then
        var e := c.entries[req];
        Turn(c, pid, if Proven(e) || now < e.at + RETRY_INTERVAL then Done(Served(e)) else Requestioning(e))
      else if req in c.flights then Turn(c, pid, Following(c.flights[req]))
      else
        var f := |c.table|;
        Turn(c.(flights := c.flights[req := f],
                table := c.table + [Flight(req, pid, BLANK, None, false, false, 0, 0)]), pid, Leading(f))
    case Resolve(pid, answers, now, gone) =>
      var req, f := c.callers[pid].req, c.callers[pid].phase.f;
      var r := Decision(Candidates(req), answers);
      if r.Resolved? then
        var (stored, e) := Store(c, req, EntryOf(r, now));
        Turn(stored.(table := c.table[f := c.table[f].(entry := e)]), pid, Retiring(f, Served(e)))
      else
        Turn(c.(table := c.table[f := c.table[f].(err := Some(ErrorOf(r)), callerGone := gone)]),
             pid, Retiring(f, Failed(ErrorOf(r))))
    case Panic(pid) =>
      var f := c.callers[pid].phase.f;
      Turn(c.(table := c.table[f := c.table[f].(panicked := true)]), pid, Retiring(f, Panicked))
    case Remove(pid) =>
      var f := c.callers[pid].phase.f;
      Turn(c.(flights := c.flights - {c.callers[pid].req},
              table := c.table[f := c.table[f].(removals := c.table[f].removals + 1)]),
           pid, Closing(f, c.callers[pid].phase.result))
    case Close(pid) =>
      var f := c.callers[pid].phase.f;
      Turn(c.(table := c.table[f := c.table[f].(closings := c.table[f].closings + 1)]),
           pid, Done(c.callers[pid].phase.result))
    case Wake(pid) =>
      var flight := c.table[c.callers[pid].phase.f];
      Turn(c, pid,
        match flight.err
        case Some(e) => if flight.callerGone then Asking else Done(Failed(e))
        case None => Done(Served(flight.entry)))
    case Leave(pid) => Turn(c, pid, Done(Failed(OwnContext)))
    case Requestion(pid, answers, now, gone) =>
      var req, entry := c.callers[pid].req, c.callers[pid].phase.entry;
      match Reconsidered(entry, Decision(entry.unresolved, answers), now, gone)
      case None => Turn(c, pid, Done(Served(entry)))
      case Some(next) =>
        var (stored, e) := Store(c, req, next);
        Turn(stored, pid, Done(Served(e)))
  }

  /* The answer for a key. */

  /** Provisional: the legacy name, with the preferred one never ruled out.  Proven: either, and no warning. */
  predicate GoodEntry(req: Request, e: Entry) {
    if Proven(e) then e.repo in Candidates(req) && !e.warned
    else e.repo == Legacy(req) && e.unresolved == [Preferred(req)] && e.warned
  }

  /** How an entry may be replaced: a provisional one by the same name again or by a proven one, a proven one never. */
  predicate Moves(a: Entry, b: Entry) {
    a == b || (!Proven(a) && (Proven(b) || b == a.(at := b.at)))
  }

  lemma MovesOn(a: Entry, b: Entry, d: Entry)
    requires Moves(a, b) && Moves(b, d)
    ensures Moves(a, d)
  {
  }

  lemma ColdIsGood(req: Request, answers: seq<Answer>, now: nat)
    requires |answers| == |Candidates(req)|
    ensures var r := Decision(Candidates(req), answers); r.Resolved? ==> GoodEntry(req, EntryOf(r, now))
  {
    var names := Candidates(req);
    var i := FirstSuccess(answers);
    if i == 1 {
      assert names[..1][..0] == [] && answers[..1][..0] == [];
      assert UnheardOf(names[..1], answers[..1]) == if Unheard(answers[0]) then [Preferred(req)] else [];
    } else if i == 0 {
      assert names[..0] == [] && answers[..0] == [];
    }
  }

  lemma RequestionIsGood(req: Request, entry: Entry, answers: seq<Answer>, now: nat, gone: bool)
    requires GoodEntry(req, entry) && !Proven(entry) && |answers| == |entry.unresolved|
    ensures var next := Reconsidered(entry, Decision(entry.unresolved, answers), now, gone);
            next.Some? ==> GoodEntry(req, next.value) && Moves(entry, next.value)
  {
    if FirstSuccess(answers) == 0 {
      assert entry.unresolved[..0] == [] && answers[..0] == [];
    }
  }

  /* What every state keeps. */

  ghost predicate EntriesOk(c: Cache) {
    forall req :: req in c.entries ==> GoodEntry(req, c.entries[req])
  }

  /** A flight in the map has a leader at work on it, who will take it out. */
  ghost predicate FlightOk(c: Cache, req: Request)
    requires req in c.flights
  {
    var f := c.flights[req];
    f < |c.table| && c.table[f].req == req && c.table[f].removals == 0 &&
    var pid := c.table[f].leader;
    pid in c.callers && c.callers[pid].req == req &&
    (c.callers[pid].phase == Leading(f) || (c.callers[pid].phase.Retiring? && c.callers[pid].phase.f == f))
  }

  /** A served answer is the cached one, or one that was replaced since; an empty one comes of a panic. */
  ghost predicate ServedOk(c: Cache, req: Request, e: Entry) {
    req in c.entries && GoodEntry(req, e) && Moves(e, c.entries[req])
  }

  ghost predicate TableOk(c: Cache, f: nat)
    requires f < |c.table|
  {
    var flight := c.table[f];
    flight.removals <= 1 && flight.closings <= flight.removals &&
    (flight.closings == 1 ==> Left(c, f) && Holds(c, flight, ResultOf(flight))) &&
    (flight.closings == 0 ==> flight.leader in c.callers && AtWork(c.callers[flight.leader].phase, f))
  }

  ghost predicate AtWork(p: Phase, f: nat) {
    (p.Leading? || p.Retiring? || p.Closing?) && p.f == f
  }

  /** The leader has gone its way. */
  ghost predicate Left(c: Cache, f: nat)
    requires f < |c.table|
  {
    c.table[f].leader in c.callers && c.callers[c.table[f].leader].phase.Done?
  }

  /** What a finished flight says. */
  function ResultOf(flight: Flight): Outcome {
    if flight.panicked then Panicked
    else
      match flight.err
      case Some(e) => Failed(e)
      case None => Served(flight.entry)
  }

  /** The flight holds what its leader is about to return. */
  ghost predicate Holds(c: Cache, flight: Flight, result: Outcome) {
    match result
    case Served(e) => flight.entry == e && flight.err == None && !flight.panicked && ServedOk(c, flight.req, e)
    case Failed(e) => flight.err == Some(e) && !flight.panicked
    case Panicked => flight.err == None && flight.panicked && flight.entry == BLANK
  }

  ghost predicate CallerOk(c: Cache, pid: nat)
    requires pid in c.callers
  {
    var req := c.callers[pid].req;
    match c.callers[pid].phase
    case Asking => true
    case Leading(f) =>
      f < |c.table| && c.table[f] == Flight(req, pid, BLANK, None, false, false, 0, 0) &&
      req in c.flights && c.flights[req] == f && req !in c.entries
    case Retiring(f, result) =>
      f < |c.table| && c.table[f].leader == pid && c.table[f].req == req && req in c.flights && c.flights[req] == f &&
      c.table[f].removals == 0 && c.table[f].closings == 0 && Holds(c, c.table[f], result)
    case Closing(f, result) =>
      f < |c.table| && c.table[f].leader == pid && c.table[f].req == req &&
      c.table[f].removals == 1 && c.table[f].closings == 0 && Holds(c, c.table[f], result)
    case Following(f) => f < |c.table| && c.table[f].req == req
    case Requestioning(e) => !Proven(e) && ServedOk(c, req, e)
    case Done(result) => result.Served? ==> ServedOk(c, req, result.entry) || (result.entry == BLANK && SomePanic(c, req))
  }

  /** Some flight on this key ended in a panic. */
  ghost predicate SomePanic(c: Cache, req: Request) {
    exists f :: 0 <= f < |c.table| && c.table[f].req == req && c.table[f].panicked
  }

  ghost predicate Inv(c: Cache) {
    EntriesOk(c) &&
    (forall req :: req in c.flights ==> FlightOk(c, req)) &&
    (forall f :: 0 <= f < |c.table| ==> TableOk(c, f)) &&
    (forall pid :: pid in c.callers ==> CallerOk(c, pid))
  }

  /* One step at a time. */

  /** Served answers stay what they are while entries only move on. */
  lemma ServedStays(c: Cache, d: Cache, req: Request, e: Entry)
    requires ServedOk(c, req, e) && req in d.entries && Moves(c.entries[req], d.entries[req])
    ensures ServedOk(d, req, e)
  {
    hide GoodEntry, Moves;
    MovesOn(e, c.entries[req], d.entries[req]);
  }

  /** Entries have only moved on. */
  ghost predicate Onward(c: Cache, d: Cache) {
    forall req :: req in c.entries ==> req in d.entries && Moves(c.entries[req], d.entries[req])
  }

  lemma HoldsStays(c: Cache, d: Cache, flight: Flight, result: Outcome)
    requires Holds(c, flight, result) && Onward(c, d)
    ensures Holds(d, flight, result)
  {
    hide ServedOk, Moves;
    if result.Served? {
      assert ServedOk(c, flight.req, result.entry);
      ServedHasEntry(c, flight.req, result.entry);
      ServedStays(c, d, flight.req, result.entry);
    }
  }

  lemma ServedHasEntry(c: Cache, req: Request, e: Entry)
    requires ServedOk(c, req, e)
    ensures req in c.entries
  {
  }

  /** Nothing a caller has depends on more than this of what others do. */
  ghost predicate Beside(c: Cache, d: Cache, pid: nat) {
    Onward(c, d) && |c.table| <= |d.table| &&
    (forall p :: p in c.callers && p != pid ==> p in d.callers && d.callers[p] == c.callers[p]) &&
    (forall f :: 0 <= f < |c.table| && c.table[f].leader != pid ==> d.table[f] == c.table[f]) &&
    (forall f :: 0 <= f < |c.table| ==> d.table[f].req == c.table[f].req && (c.table[f].panicked ==> d.table[f].panicked)) &&
    (forall req :: req in c.flights && c.flights[req] < |c.table| && c.table[c.flights[req]].leader != pid ==>
      req in d.flights && d.flights[req] == c.flights[req]) &&
    (forall req :: req in d.entries && req !in c.entries ==>
      req in c.flights && c.flights[req] < |c.table| && c.table[c.flights[req]].leader == pid)
  }

  lemma OthersStay(c: Cache, d: Cache, pid: nat, other: nat)
    requires Beside(c, d, pid) && other in c.callers && other != pid && CallerOk(c, other)
    ensures other in d.callers && CallerOk(d, other)
  {
    hide Moves, GoodEntry, Holds, ServedOk, Onward;
    var req := c.callers[other].req;
    match c.callers[other].phase
    case Retiring(f, result) => HoldsStays(c, d, c.table[f], result);
    case Closing(f, result) => HoldsStays(c, d, c.table[f], result);
    case Requestioning(e) => ServedOn(c, d, req, e);
    case Done(result) =>
      if result.Served? {
        if ServedOk(c, req, result.entry) {
          ServedOn(c, d, req, result.entry);
        } else {
          var f :| 0 <= f < |c.table| && c.table[f].req == req && c.table[f].panicked;
          assert d.table[f].panicked;
        }
      }
    case _ =>
  }

  lemma ServedOn(c: Cache, d: Cache, req: Request, e: Entry)
    requires ServedOk(c, req, e) && Onward(c, d)
    ensures ServedOk(d, req, e)
  {
    hide Moves;
    ServedHasEntry(c, req, e);
    ServedStays(c, d, req, e);
  }

  lemma FlightStays(c: Cache, d: Cache, pid: nat, req: Request)
    requires Beside(c, d, pid) && req in c.flights && FlightOk(c, req) && c.table[c.flights[req]].leader != pid
    ensures req in d.flights && FlightOk(d, req)
  {
    hide Onward;
  }

  lemma TableStays(c: Cache, d: Cache, pid: nat, f: nat)
    requires Beside(c, d, pid) && f < |c.table| && TableOk(c, f) && c.table[f].leader != pid
    ensures f < |d.table| && TableOk(d, f)
  {
    hide Holds, Onward;
    if c.table[f].closings == 1 {
      HoldsStays(c, d, c.table[f], ResultOf(c.table[f]));
    }
  }

  /** A caller leads the flight it is at work on and no other, and none before or beside that. */
  lemma OwnFlight(c: Cache, pid: nat, f: nat)
    requires f < |c.table| && TableOk(c, f) && c.table[f].leader == pid
    requires pid in c.callers ==> !c.callers[pid].phase.Done?
    ensures pid in c.callers && AtWork(c.callers[pid].phase, f)
  {
    hide Holds;
  }

  /** What is left to be shown of a step: the caller's own affairs. */
  lemma StepIsLocal(c: Cache, d: Cache, pid: nat)
    requires Inv(c) && Beside(c, d, pid) && EntriesOk(d)
    requires d.callers.Keys == c.callers.Keys + {pid} && CallerOk(d, pid)
    requires forall req :: req in d.flights ==>
      FlightOk(d, req) || (req in c.flights && c.flights[req] < |c.table| && c.table[c.flights[req]].leader != pid)
    requires forall f :: 0 <= f < |d.table| ==>
      TableOk(d, f) || (f < |c.table| && c.table[f].leader != pid)
    ensures Inv(d)
  {
    hide EntriesOk, FlightOk, TableOk, CallerOk, Beside;
    forall req | req in d.flights
      ensures FlightOk(d, req)
    {
      if !FlightOk(d, req) {
        FlightStays(c, d, pid, req);
      }
    }
    forall f | 0 <= f < |d.table|
      ensures TableOk(d, f)
    {
      if !TableOk(d, f) {
        TableStays(c, d, pid, f);
      }
    }
    forall p | p in d.callers
      ensures CallerOk(d, p)
    {
      if p != pid {
        OthersStay(c, d, pid, p);
      }
    }
  }

  /** A caller that leads no flight. */
  predicate Idle(p: Phase) { p.Asking? || p.Following? || p.Requestioning? }

  lemma IdleLeadsNone(c: Cache, pid: nat)
    requires Inv(c) && pid in c.callers && Idle(c.callers[pid].phase)
    ensures forall f :: 0 <= f < |c.table| ==> c.table[f].leader != pid
    ensures forall req :: req in c.flights ==> c.flights[req] < |c.table|
  {
    hide FlightOk, CallerOk, EntriesOk, TableOk;
    forall f | 0 <= f < |c.table|
      ensures c.table[f].leader != pid
    {
      if c.table[f].leader == pid {
        assert TableOk(c, f);
        OwnFlight(c, pid, f);
      }
    }
    forall req | req in c.flights
      ensures c.flights[req] < |c.table|
    {
      FlightHas(c, req);
    }
  }

  lemma FlightHas(c: Cache, req: Request)
    requires req in c.flights && FlightOk(c, req)
    ensures c.flights[req] < |c.table| && c.table[c.flights[req]].req == req
  {
  }

  /** An idle caller writes at most the answer for its own key, and takes up a phase that fits. */
  lemma IdleKeeps(c: Cache, d: Cache, pid: nat, p: Phase)
    requires Inv(c) && pid in c.callers && Idle(c.callers[pid].phase)
    requires d == Turn(c, pid, p).(entries := d.entries)
    requires d.entries.Keys == c.entries.Keys && Onward(c, d) && EntriesOk(d) && CallerOk(d, pid)
    ensures Inv(d)
  {
    IdleLeadsNone(c, pid);
    hide FlightOk, CallerOk, EntriesOk, TableOk, Inv, Onward;
    IdleBeside(c, d, pid, p);
    hide Beside;
    StepIsLocal(c, d, pid);
  }

  lemma IdleBeside(c: Cache, d: Cache, pid: nat, p: Phase)
    requires pid in c.callers && d == Turn(c, pid, p).(entries := d.entries)
    requires d.entries.Keys == c.entries.Keys && Onward(c, d)
    ensures Beside(c, d, pid)
  {
    hide Onward;
    assert forall req :: req in d.entries ==> req in d.entries.Keys;
  }

  /** Publishing never replaces a proven answer, and an answer that fits moves on from the one there is. */
  lemma StoreMoves(c: Cache, req: Request, next: Entry)
    requires EntriesOk(c) && GoodEntry(req, next) && (req in c.entries ==> Proven(c.entries[req]) || Moves(c.entries[req], next))
    ensures var (d, e) := Store(c, req, next);
            d == c.(entries := d.entries) && d.entries.Keys == c.entries.Keys + {req} &&
            EntriesOk(d) && Onward(c, d) && ServedOk(d, req, e)
  {
  }

  lemma ProvisionalMoves(req: Request, a: Entry, b: Entry)
    requires GoodEntry(req, a) && GoodEntry(req, b) && !Proven(a)
    ensures Moves(a, b)
  {
  }

  lemma RequestionKeeps(c: Cache, pid: nat, answers: seq<Answer>, now: nat, gone: bool)
    requires Inv(c) && Enabled(c, Requestion(pid, answers, now, gone))
    ensures Inv(Do(c, Requestion(pid, answers, now, gone)))
    ensures Onward(c, Do(c, Requestion(pid, answers, now, gone)))
  {
    hide FlightOk, TableOk, EntriesOk, GoodEntry, Moves, Decision;
    var req, entry := c.callers[pid].req, c.callers[pid].phase.entry;
    var d := Do(c, Requestion(pid, answers, now, gone));
    assert CallerOk(c, pid);
    ServedIsGood(c, req, entry);
    RequestionIsGood(req, entry, answers, now, gone);
    match Reconsidered(entry, Decision(entry.unresolved, answers), now, gone)
    case None =>
      hide Inv, ServedOk;
      OnwardSame(c, d);
      EntriesSame(c, d);
      ServedOn(c, d, req, entry);
      IdleKeeps(c, d, pid, Done(Served(entry)));
    case Some(next) =>
      CachedIsGood(c, req);
      if !Proven(c.entries[req]) {
        ProvisionalMoves(req, c.entries[req], next);
      }
      StoreMoves(c, req, next);
      var (stored, e) := Store(c, req, next);
      OnwardSame(stored, d);
      EntriesSame(stored, d);
      hide Inv, Store;
      SameServed(stored, d, req, e);
      OnwardAs(c, stored, d);
      IdleKeeps(c, d, pid, Done(Served(e)));
  }

  lemma ServedIsGood(c: Cache, req: Request, e: Entry)
    requires ServedOk(c, req, e)
    ensures req in c.entries && GoodEntry(req, e)
  {
  }

  lemma CachedIsGood(c: Cache, req: Request)
    requires EntriesOk(c) && req in c.entries
    ensures GoodEntry(req, c.entries[req])
  {
  }

  lemma OnwardSame(c: Cache, d: Cache)
    requires d.entries == c.entries
    ensures Onward(c, d)
  {
  }

  lemma OnwardAs(c: Cache, d: Cache, e: Cache)
    requires Onward(c, d) && d.entries == e.entries
    ensures Onward(c, e)
  {
  }

  lemma EntriesSame(c: Cache, d: Cache)
    requires EntriesOk(c) && d.entries == c.entries
    ensures EntriesOk(d)
  {
  }

  lemma SameServed(c: Cache, d: Cache, req: Request, e: Entry)
    requires ServedOk(c, req, e) && d.entries == c.entries
    ensures ServedOk(d, req, e)
  {
  }

  lemma WakeKeeps(c: Cache, pid: nat)
    requires Inv(c) && Enabled(c, Wake(pid))
    ensures Inv(Do(c, Wake(pid)))
    ensures Onward(c, Do(c, Wake(pid)))
  {
    hide FlightOk, EntriesOk, ServedOk, Left;
    var d := Do(c, Wake(pid));
    assert CallerOk(c, pid);
    var f := c.callers[pid].phase.f;
    var flight := c.table[f];
    assert TableOk(c, f) && flight.closings == 1;
    assert Holds(c, flight, ResultOf(flight));
    OnwardSame(c, d);
    EntriesSame(c, d);
    if flight.err.None? {
      if flight.panicked {
        assert d.table[f].panicked;
      } else {
        SameServed(c, d, flight.req, flight.entry);
      }
    }
    assert CallerOk(d, pid);
    hide Inv;
    IdleKeeps(c, d, pid, d.callers[pid].phase);
  }

  lemma LeaveKeeps(c: Cache, pid: nat)
    requires Inv(c) && Enabled(c, Leave(pid))
    ensures Inv(Do(c, Leave(pid)))
    ensures Onward(c, Do(c, Leave(pid)))
  {
    hide FlightOk, EntriesOk, ServedOk, TableOk;
    var d := Do(c, Leave(pid));
    OnwardSame(c, d);
    EntriesSame(c, d);
    IdleKeeps(c, d, pid, Done(Failed(OwnContext)));
  }

  lemma ArriveKeeps(c: Cache, pid: nat, req: Request)
    requires Inv(c) && Enabled(c, Arrive(pid, req))
    ensures Inv(Do(c, Arrive(pid, req)))
    ensures Onward(c, Do(c, Arrive(pid, req)))
  {
    hide FlightOk, EntriesOk, ServedOk, TableOk;
    var d := Do(c, Arrive(pid, req));
    OnwardSame(c, d);
    EntriesSame(c, d);
    forall f | 0 <= f < |c.table|
      ensures c.table[f].leader != pid
    {
      assert TableOk(c, f);
      LeaderIsThere(c, f);
    }
    forall r | r in c.flights
      ensures c.flights[r] < |c.table|
    {
      FlightHas(c, r);
    }
    hide Inv;
    StepIsLocal(c, d, pid);
  }

  lemma LeaderIsThere(c: Cache, f: nat)
    requires f < |c.table| && TableOk(c, f)
    ensures c.table[f].leader in c.callers
  {
    hide Holds;
  }

  lemma AskKeeps(c: Cache, pid: nat, now: nat)
    requires Inv(c) && Enabled(c, Ask(pid, now))
    ensures Inv(Do(c, Ask(pid, now)))
    ensures Onward(c, Do(c, Ask(pid, now)))
  {
    hide FlightOk, EntriesOk, TableOk, GoodEntry, Moves;
    var d := Do(c, Ask(pid, now));
    var req := c.callers[pid].req;
    OnwardSame(c, d);
    EntriesSame(c, d);
    if req in c.entries {
      CachedIsGood(c, req);
      MovesNot(c.entries[req]);
      assert ServedOk(d, req, c.entries[req]);
      hide Inv;
      IdleKeeps(c, d, pid, d.callers[pid].phase);
    } else if req in c.flights {
      FlightHas(c, req);
      hide Inv;
      IdleKeeps(c, d, pid, d.callers[pid].phase);
    } else {
      IdleLeadsNone(c, pid);
      assert FlightOk(d, req) by { NewFlight(c, d, pid, req); }
      assert TableOk(d, |c.table|) by { NewFlight(c, d, pid, req); }
      hide Inv, Onward;
      StepIsLocal(c, d, pid);
    }
  }

  lemma NewFlight(c: Cache, d: Cache, pid: nat, req: Request)
    requires pid in d.callers && d.callers[pid] == Caller(req, Leading(|c.table|))
    requires d.table == c.table + [Flight(req, pid, BLANK, None, false, false, 0, 0)]
    requires req in d.flights && d.flights[req] == |c.table|
    ensures FlightOk(d, req) && TableOk(d, |c.table|)
  {
    hide Holds;
  }

  lemma MovesNot(e: Entry)
    ensures Moves(e, e)
  {
  }

  lemma BusyLeadsOne(c: Cache, pid: nat, f: nat)
    requires Inv(c) && pid in c.callers && AtWork(c.callers[pid].phase, f)
    ensures f < |c.table| && c.table[f].leader == pid && c.table[f].req == c.callers[pid].req
    ensures forall g :: 0 <= g < |c.table| && c.table[g].leader == pid ==> g == f
    ensures forall req :: req in c.flights ==> c.flights[req] < |c.table| && c.table[c.flights[req]].req == req
  {
    hide FlightOk, EntriesOk, TableOk, Holds;
    assert CallerOk(c, pid);
    forall g | 0 <= g < |c.table| && c.table[g].leader == pid
      ensures g == f
    {
      assert TableOk(c, g);
      OwnFlight(c, pid, g);
    }
    forall req | req in c.flights
      ensures c.flights[req] < |c.table| && c.table[c.flights[req]].req == req
    {
      FlightHas(c, req);
    }
  }

  /** A leader writes to its own flight, publishes at most the first answer for its key, and goes on. */
  lemma BusyKeeps(c: Cache, d: Cache, pid: nat, f: nat, flight: Flight, p: Phase)
    requires Inv(c) && pid in c.callers && AtWork(c.callers[pid].phase, f) && f < |c.table|
    requires var req := c.callers[pid].req;
             flight.req == req && flight.leader == pid && (c.table[f].panicked ==> flight.panicked) &&
             d == Turn(c, pid, p).(entries := d.entries, flights := d.flights, table := c.table[f := flight]) &&
             (d.flights == c.flights || d.flights == c.flights - {req}) &&
             (d.entries == c.entries || (c.callers[pid].phase.Leading? && d.entries.Keys == c.entries.Keys + {req})) &&
             (req in d.flights && d.flights[req] == f ==> FlightOk(d, req))
    requires Onward(c, d) && EntriesOk(d) && CallerOk(d, pid) && TableOk(d, f)
    requires c.callers[pid].req in c.flights && d.flights != c.flights ==> c.flights[c.callers[pid].req] == f
    ensures Inv(d)
  {
    BusyLeadsOne(c, pid, f);
    assert CallerOk(c, pid);
    hide FlightOk, EntriesOk, TableOk, Inv, Onward, Holds;
    BusyBeside(c, d, pid, f, flight, p);
    hide CallerOk, Beside;
    StepIsLocal(c, d, pid);
  }

  lemma BusyBeside(c: Cache, d: Cache, pid: nat, f: nat, flight: Flight, p: Phase)
    requires pid in c.callers && f < |c.table| && CallerOk(c, pid) && AtWork(c.callers[pid].phase, f)
    requires var req := c.callers[pid].req;
             c.table[f].leader == pid && c.table[f].req == flight.req && (c.table[f].panicked ==> flight.panicked) &&
             d == Turn(c, pid, p).(entries := d.entries, flights := d.flights, table := c.table[f := flight]) &&
             (d.flights == c.flights || d.flights == c.flights - {req}) &&
             (d.entries == c.entries || (c.callers[pid].phase.Leading? && d.entries.Keys == c.entries.Keys + {req})) &&
             (req in c.flights && d.flights != c.flights ==> c.flights[req] == f)
    requires Onward(c, d)
    ensures Beside(c, d, pid)
  {
    hide Onward, Holds;
    assert forall r :: r in d.entries ==> r in d.entries.Keys;
  }

  lemma ResolveKeeps(c: Cache, pid: nat, answers: seq<Answer>, now: nat, gone: bool)
    requires Inv(c) && Enabled(c, Resolve(pid, answers, now, gone))
    ensures Inv(Do(c, Resolve(pid, answers, now, gone)))
    ensures Onward(c, Do(c, Resolve(pid, answers, now, gone)))
  {
    hide Decision, GoodEntry, Moves, EntriesOk;
    var req, f := c.callers[pid].req, c.callers[pid].phase.f;
    var d := Do(c, Resolve(pid, answers, now, gone));
    var r := Decision(Candidates(req), answers);
    assert CallerOk(c, pid) && FlightOk(c, req);
    if r.Resolved? {
      ColdIsGood(req, answers, now);
      StoreMoves(c, req, EntryOf(r, now));
      var (stored, e) := Store(c, req, EntryOf(r, now));
      EntriesSame(stored, d);
      SameServed(stored, d, req, e);
      OnwardAs(c, stored, d);
      hide Inv, ServedOk;
      BusyKeeps(c, d, pid, f, d.table[f], Retiring(f, Served(e)));
    } else {
      EntriesSame(c, d);
      OnwardSame(c, d);
      hide Inv, ServedOk;
      BusyKeeps(c, d, pid, f, d.table[f], Retiring(f, Failed(ErrorOf(r))));
    }
  }

  lemma PanicKeeps(c: Cache, pid: nat)
    requires Inv(c) && Enabled(c, Panic(pid))
    ensures Inv(Do(c, Panic(pid)))
    ensures Onward(c, Do(c, Panic(pid)))
  {
    hide EntriesOk;
    var req, f := c.callers[pid].req, c.callers[pid].phase.f;
    var d := Do(c, Panic(pid));
    assert CallerOk(c, pid) && FlightOk(c, req);
    EntriesSame(c, d);
    OnwardSame(c, d);
    hide Inv, ServedOk;
    BusyKeeps(c, d, pid, f, d.table[f], Retiring(f, Panicked));
  }

  lemma RemoveKeeps(c: Cache, pid: nat)
    requires Inv(c) && Enabled(c, Remove(pid))
    ensures Inv(Do(c, Remove(pid)))
    ensures Onward(c, Do(c, Remove(pid)))
  {
    hide EntriesOk, ServedOk;
    var req, f := c.callers[pid].req, c.callers[pid].phase.f;
    var d := Do(c, Remove(pid));
    assert CallerOk(c, pid) && FlightOk(c, req);
    EntriesSame(c, d);
    OnwardSame(c, d);
    HoldsStays(c, d, c.table[f], c.callers[pid].phase.result);
    hide Inv, Onward;
    BusyKeeps(c, d, pid, f, d.table[f], Closing(f, c.callers[pid].phase.result));
  }

  lemma CloseKeeps(c: Cache, pid: nat)
    requires Inv(c) && Enabled(c, Close(pid))
    ensures Inv(Do(c, Close(pid)))
    ensures Onward(c, Do(c, Close(pid)))
  {
    hide EntriesOk, ServedOk;
    var req, f := c.callers[pid].req, c.callers[pid].phase.f;
    var d := Do(c, Close(pid));
    var result := c.callers[pid].phase.result;
    assert CallerOk(c, pid);
    EntriesSame(c, d);
    OnwardSame(c, d);
    HoldsStays(c, d, c.table[f], result);
    assert Holds(d, d.table[f], result);
    assert ResultOf(d.table[f]) == result;
    NotRemoved(c, req);
    hide Inv, Onward, FlightOk;
    BusyKeeps(c, d, pid, f, d.table[f], Done(result));
  }

  lemma NotRemoved(c: Cache, req: Request)
    requires Inv(c)
    ensures req in c.flights ==> c.flights[req] < |c.table| && c.table[c.flights[req]].removals == 0
  {
    hide EntriesOk, TableOk, CallerOk;
    if req in c.flights {
      assert FlightOk(c, req);
    }
  }

  lemma StepKeeps(c: Cache, s: Step)
    requires Inv(c) && Enabled(c, s)
    ensures Inv(Do(c, s)) && Onward(c, Do(c, s))
  {
    match s
    case Arrive(pid, req) => hide *; ArriveKeeps(c, pid, req);
    case Ask(pid, now) => hide *; AskKeeps(c, pid, now);
    case Resolve(pid, answers, now, gone) => hide *; ResolveKeeps(c, pid, answers, now, gone);
    case Panic(pid) => hide *; PanicKeeps(c, pid);
    case Remove(pid) => hide *; RemoveKeeps(c, pid);
    case Close(pid) => hide *; CloseKeeps(c, pid);
    case Wake(pid) => hide *; WakeKeeps(c, pid);
    case Leave(pid) => hide *; LeaveKeeps(c, pid);
    case Requestion(pid, answers, now, gone) => hide *; RequestionKeeps(c, pid, answers, now, gone);
  }
}
