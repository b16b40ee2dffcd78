/**
 The client that holds the cached names and the resolutions in progress.  Each method is one critical
 section, or the closing of a channel, and says which step of the protocol it takes; other callers may take
 any of theirs in between.
 */
module InstallerClient {
  import opened Wrappers
  import opened InstallerResolve
  import opened InstallerCache

  /** What a caller that asks is told to do. */
  datatype Found = Cached(entry: Entry) | Stale(entry: Entry) | Wait(f: nat) | Lead(f: nat)

  class Client {
    var repos: map<Request, Entry>
    var flights: map<Request, nat>
    var table: seq<Flight>

    /** Where every caller stands. */
    ghost var callers: map<nat, Caller>

    ghost function View(): Cache
      reads this
    {
      Cache(repos, flights, table, callers)
    }

    ghost predicate Valid()
      reads this
    {
      Inv(View())
    }

    /** This step has been taken since then. */
    ghost predicate Took(before: Cache, s: Step)
      reads this
    {
      Enabled(before, s) && View() == Do(before, s)
    }

    constructor ()
      ensures View() == EMPTY_CACHE && Valid()
    {
      repos, flights, table, callers := map[], map[], [], map[];
    }

    /** A call comes in. */
    ghost method Enter(pid: nat, req: Request)
      requires Valid() && pid !in callers
      modifies this`callers
      ensures Valid() && Took(old(View()), Arrive(pid, req))
    {
      hide Inv;
      StepKeeps(View(), Arrive(pid, req));
      callers := callers[pid := Caller(req, Asking)];
    }

    /** Looks into the cache; with nothing there, joins the resolution in progress or begins one. */
    method Ask(pid: nat, req: Request, now: nat) returns (found: Found)
      requires Valid() && pid in callers && callers[pid] == Caller(req, Asking)
      modifies this
      ensures Valid() && Took(old(View()), Step.Ask(pid, now))
      ensures callers[pid].phase == match found {
        case Cached(e) => Done(Served(e))
        case Stale(e) => Requestioning(e)
        case Wait(f) => Following(f)
        case Lead(f) => Leading(f)
      }
    {
      hide Inv;
      StepKeeps(View(), Step.Ask(pid, now));
      if req in repos {
        var e := repos[req];
        found := if Proven(e) || now < e.at + RETRY_INTERVAL then Cached(e) else Stale(e);
      } else if req in flights {
        found := Wait(flights[req]);
      } else {
        found := Lead(|table|);
        flights := flights[req := |table|];
        table := table + [Flight(req, pid, BLANK, None, false, false, 0, 0)];
      }
      callers := callers[pid := Caller(req, match found {
        case Cached(e) => Done(Served(e))
        case Stale(e) => Requestioning(e)
        case Wait(f) => Following(f)
        case Lead(f) => Leading(f)
      })];
    }

    /** Publishes an answer unless a proven one stands, and returns the one to serve. */
    method StoreInstallerRepo(req: Request, next: Entry) returns (served: Entry)
      modifies this`repos
      ensures (View(), served) == Store(old(View()), req, next)
    {
      if req in repos && Proven(repos[req]) {
        return repos[req];
      }
      repos := repos[req := next];
      served := next;
    }

    /** The resolution of a leader: asks every candidate and publishes what came of it, to the cache and to its flight. */
    method LeadInstallerFlight(pid: nat, f: nat, req: Request, answers: seq<Answer>, arrival: seq<nat>, now: nat, gone: bool)
      returns (result: Outcome)
      requires Valid() && pid in callers && callers[pid] == Caller(req, Leading(f)) && f < |table|
      requires |answers| == |Candidates(req)|
      requires forall k :: 0 <= k < |arrival| ==> arrival[k] < |answers|
      requires forall i :: 0 <= i < |answers| ==> i in arrival
      modifies this
      ensures Valid() && Took(old(View()), Resolve(pid, answers, now, gone))
      ensures callers[pid].phase == Retiring(f, result)
    {
      hide Inv, Decision;
      ghost var before := View();
      StepKeeps(before, Resolve(pid, answers, now, gone));
      var r := ResolveInstallerRepo(Candidates(req), answers, arrival);
      if r.Resolved? {
        var served := StoreInstallerRepo(req, EntryOf(r, now));
        table := table[f := table[f].(entry := served)];
        result := Served(served);
      } else {
        table := table[f := table[f].(err := Some(ErrorOf(r)), callerGone := gone)];
        result := Failed(ErrorOf(r));
      }
      callers := callers[pid := Caller(req, Retiring(f, result))];
    }

    /** Takes a finished flight out of the map, whatever came of it. */
    method RemoveFlight(pid: nat, f: nat, req: Request, ghost result: Outcome)
      requires Valid() && pid in callers && callers[pid] == Caller(req, Retiring(f, result)) && f < |table|
      modifies this
      ensures Valid() && Took(old(View()), Remove(pid))
      ensures callers[pid].phase == Closing(f, result)
    {
      hide Inv;
      StepKeeps(View(), Remove(pid));
      flights := flights - {req};
      table := table[f := table[f].(removals := table[f].removals + 1)];
      callers := callers[pid := Caller(req, Closing(f, result))];
    }

    /** Wakes everyone who waits for it. */
    method CloseFlight(pid: nat, f: nat, req: Request, ghost result: Outcome)
      requires Valid() && pid in callers && callers[pid] == Caller(req, Closing(f, result)) && f < |table|
      modifies this
      ensures Valid() && Took(old(View()), Close(pid))
      ensures callers[pid].phase == Done(result)
    {
      hide Inv;
      StepKeeps(View(), Close(pid));
      table := table[f := table[f].(closings := table[f].closings + 1)];
      callers := callers[pid := Caller(req, Done(result))];
    }

    /** What a follower takes from a closed flight; None when it has to ask again itself. */
    method FollowInstallerFlight(pid: nat, f: nat, req: Request) returns (result: Option<Outcome>)
      requires Valid() && pid in callers && callers[pid] == Caller(req, Following(f))
      requires f < |table| && table[f].closings > 0
      modifies this`callers
      ensures Valid() && Took(old(View()), Wake(pid))
      ensures callers[pid].phase == if result.None? then Asking else Done(result.value)
    {
      hide Inv;
      StepKeeps(View(), Wake(pid));
      var flight := table[f];
      if flight.err.Some? && flight.callerGone {
        result := None;
      } else if flight.err.Some? {
        result := Some(Failed(flight.err.value));
      } else {
        result := Some(Served(flight.entry));
      }
      callers := callers[pid := Caller(req, if result.None? then Asking else Done(result.value))];
    }

    /** Asks again about a provisional answer, and only the names it never ruled out. */
    method RequestionInstallerRepo(pid: nat, req: Request, entry: Entry, answers: seq<Answer>, arrival: seq<nat>,
                                   now: nat, gone: bool)
      returns (served: Entry)
      requires Valid() && pid in callers && callers[pid] == Caller(req, Requestioning(entry))
      requires |answers| == |entry.unresolved|
      requires forall k :: 0 <= k < |arrival| ==> arrival[k] < |answers|
      requires forall i :: 0 <= i < |answers| ==> i in arrival
      modifies this
      ensures Valid() && Took(old(View()), Requestion(pid, answers, now, gone))
      ensures callers[pid].phase == Done(Served(served))
    {
      hide Inv, Decision;
      StepKeeps(View(), Requestion(pid, answers, now, gone));
      var r := ResolveInstallerRepo(entry.unresolved, answers, arrival);
      if r.Unavailable? && gone {
        callers := callers[pid := Caller(req, Done(Served(entry)))];
        return entry;
      }
      var next := entry.(at := now);
      if r.Resolved? {
        next := Entry(r.repo, r.unresolved, r.unresolved != [], now);
      } else if r.NotBuildable? {
        next := Entry(entry.repo, [], false, now);
      }
      served := StoreInstallerRepo(req, next);
      callers := callers[pid := Caller(req, Done(Served(served)))];
    }
  }
}
