/**
 What a caller is served and what is cached, said of the answers of the registry: an answer of 2xx carries the
 installer, 400 and 404 refuse it, anything else says nothing.
 */
module InstallerAnswers {
  import opened Wrappers
  import opened InstallerResolve
  import opened InstallerCache

  predicate Carries(a: Answer) { a.Status? && 200 <= a.code < 300 }

  predicate Refuses(a: Answer) { a == Status(400) || a == Status(404) }

  predicate SaysNothing(a: Answer) { !Carries(a) && !Refuses(a) }

  lemma AnswersAre(a: Answer)
    ensures Carries(a) == Success(a) && Refuses(a) == Refused(a) && SaysNothing(a) == Unheard(a)
  {
  }

  /** The name made for the platform. */
  function OwnName(req: Request): string {
    if req.secureBoot then req.platform + "-installer-secureboot" else req.platform + "-installer"
  }

  /** The name all platforms shared before. */
  function SharedName(req: Request): string {
    if req.secureBoot then "installer-secureboot" else "installer"
  }

  lemma NamesAre(req: Request)
    ensures Preferred(req) == OwnName(req) && Legacy(req) == SharedName(req)
  {
    assert "-" + "installer" == "-installer";
    assert req.platform + "-" + "installer" + "-secureboot" == req.platform + "-installer-secureboot";
    assert req.platform + "-" + "installer" + "" == req.platform + "-installer";
  }

  lemma DecisionOfTwo(names: seq<string>, answers: seq<Answer>)
    requires |names| == |answers| == 2
    ensures var a, b := answers[0], answers[1];
            Decision(names, answers) ==
            if Carries(a) then Resolved(names[0], [])
            else if Carries(b) then Resolved(names[1], if Refuses(a) then [] else [names[0]])
            else if Refuses(a) && Refuses(b) then NotBuildable(names)
            else Unavailable(if SaysNothing(b) then names[1] else names[0])
  {
    AnswersAre(answers[0]);
    AnswersAre(answers[1]);
    hide Success, Refused;
    assert names[..0] == [] && answers[..0] == [];
    assert names[..1][..0] == [] && answers[..1][..0] == [] && names[..1] == [names[0]] && answers[..1] == [answers[0]];
    assert UnheardOf(names[..1], answers[..1]) == if Unheard(answers[0]) then [names[0]] else [];
    assert UnheardOf(names, answers) == UnheardOf(names[..1], answers[..1]) + if Unheard(answers[1]) then [names[1]] else [];
  }

  lemma DecisionOfOne(name: string, answer: Answer)
    ensures Decision([name], [answer]) ==
            if Carries(answer) then Resolved(name, []) else if Refuses(answer) then NotBuildable([name]) else Unavailable(name)
  {
    AnswersAre(answer);
    hide Success, Refused;
    assert [name][..0] == [] && [answer][..0] == [];
    assert UnheardOf([name], [answer]) == if Unheard(answer) then [name] else [];
  }

  /**
   A resolution from cold: the platform's own name when it answers; the shared one when only that does, proven
   if the own one was refused, and otherwise provisional and with a warning.  When neither answers nothing is
   cached: "no installer" if both were refused, and a failure of the registry otherwise.
   */
  lemma ColdServes(c: Cache, pid: nat, answers: seq<Answer>, now: nat, gone: bool)
    requires Inv(c) && Enabled(c, Resolve(pid, answers, now, gone))
    ensures |answers| == 2
    ensures var req, own, shared := c.callers[pid].req, answers[0], answers[1];
            var d := Do(c, Resolve(pid, answers, now, gone));
            var f := c.callers[pid].phase.f;
            if Carries(own) || Carries(shared) then
              var entry := if Carries(own) then Entry(OwnName(req), [], false, now)
                else if Refuses(own) then Entry(SharedName(req), [], false, now)
                else Entry(SharedName(req), [OwnName(req)], true, now);
              && d.entries == c.entries[req := entry] && d.table[f].entry == entry && d.table[f].err.None?
              && d.callers[pid].phase == Retiring(f, Served(entry))
            else
              && d.entries == c.entries && d.table[f].callerGone == gone
              && d.callers[pid].phase == Retiring(f, Failed(
                   if Refuses(own) && Refuses(shared) then NoInstaller
                   else Upstream(if SaysNothing(shared) then SharedName(req) else OwnName(req))))
              && d.table[f].err == Some(d.callers[pid].phase.result.err)
  {
    hide EntriesOk, FlightOk, TableOk, Carries, Refuses, Decision;
    assert CallerOk(c, pid);
    DecisionOfTwo(Candidates(c.callers[pid].req), answers);
    NamesAre(c.callers[pid].req);
  }

  /**
   A re-question of a provisional answer, on a key that nobody has proven meanwhile: an answer makes the
   platform's own name the proven one, a refusal proves the name that was served, and silence stamps it anew,
   or leaves it as it is when it was the caller that had left.
   */
  lemma RequestionServes(c: Cache, pid: nat, answers: seq<Answer>, now: nat, gone: bool)
    requires Inv(c) && Enabled(c, Requestion(pid, answers, now, gone))
    requires c.callers[pid].req in c.entries && c.entries[c.callers[pid].req].unresolved != []
    ensures |answers| == 1
    ensures var req := c.callers[pid].req;
            var d := Do(c, Requestion(pid, answers, now, gone));
            var was := c.callers[pid].phase.entry;
            && was.repo == SharedName(req) && was.unresolved == [OwnName(req)] && was.warned
            && if SaysNothing(answers[0]) && gone then
                 d.entries == c.entries && d.callers[pid].phase == Done(Served(was))
               else
                 var entry := if Carries(answers[0]) then Entry(OwnName(req), [], false, now)
                   else if Refuses(answers[0]) then Entry(SharedName(req), [], false, now)
                   else Entry(SharedName(req), [OwnName(req)], true, now);
                 d.entries == c.entries[req := entry] && d.callers[pid].phase == Done(Served(entry))
  {
    hide EntriesOk, FlightOk, TableOk, Carries, Refuses, Decision;
    var was := c.callers[pid].phase.entry;
    assert CallerOk(c, pid);
    NamesAre(c.callers[pid].req);
    assert was.unresolved == [OwnName(c.callers[pid].req)] && answers == [answers[0]];
    DecisionOfOne(was.unresolved[0], answers[0]);
  }

  /** On a key that is proven by now a re-question changes nothing, and serves what is proven unless its caller heard nothing and left. */
  lemma RequestionYields(c: Cache, pid: nat, answers: seq<Answer>, now: nat, gone: bool)
    requires Inv(c) && Enabled(c, Requestion(pid, answers, now, gone))
    requires c.callers[pid].req in c.entries && c.entries[c.callers[pid].req].unresolved == []
    ensures |answers| == 1
    ensures var req := c.callers[pid].req;
            var d := Do(c, Requestion(pid, answers, now, gone));
            && d.entries == c.entries
            && d.callers[pid].phase == Done(Served(
                 if SaysNothing(answers[0]) && gone then c.callers[pid].phase.entry else c.entries[req]))
  {
    hide EntriesOk, FlightOk, TableOk, Carries, Refuses, Decision;
    var was := c.callers[pid].phase.entry;
    assert CallerOk(c, pid);
    NamesAre(c.callers[pid].req);
    assert was.unresolved == [OwnName(c.callers[pid].req)] && answers == [answers[0]];
    DecisionOfOne(was.unresolved[0], answers[0]);
  }

  /**
   What a caller that asks finds: an answer that is proven, or not yet five minutes old, is served; an older one
   is asked about again; with none it joins the resolution in progress, or begins the only one.
   */
  lemma AskFinds(c: Cache, pid: nat, now: nat)
    requires Enabled(c, Ask(pid, now))
    ensures var req := c.callers[pid].req;
            var d := Do(c, Ask(pid, now));
            var phase := d.callers[pid].phase;
            && d.entries == c.entries
            && (req in c.entries ==>
                  phase == if c.entries[req].unresolved == [] || now < c.entries[req].at + 5 * 60 then Done(Served(c.entries[req]))
                           else Requestioning(c.entries[req]))
            && (req !in c.entries && req in c.flights ==> phase == Following(c.flights[req]) && d.flights == c.flights)
            && (req !in c.entries && req !in c.flights ==>
                  phase == Leading(|c.table|) && d.flights == c.flights[req := |c.table|] && |d.table| == |c.table| + 1)
  {
  }
}
