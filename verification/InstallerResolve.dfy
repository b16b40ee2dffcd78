/**
 Which repository name carries the installer: all candidates are asked at once, and the answers are read
 in the declared order, whatever the order they came in.
 */
module InstallerResolve {
  import opened Wrappers

  datatype Request = Request(platform: string, version: string, secureBoot: bool)

  const LEGACY := "installer"
  const SECURE_BOOT_SUFFIX := "-secureboot"

  function Suffix(r: Request): string {
    if r.secureBoot then SECURE_BOOT_SUFFIX else ""
  }

  function Preferred(r: Request): string { r.platform + "-" + LEGACY + Suffix(r) }

  function Legacy(r: Request): string { LEGACY + Suffix(r) }

  /** The names that may carry a request's installer, in the order they are preferred. */
  function Candidates(r: Request): seq<string> {
    [Preferred(r), Legacy(r)]
  }

  predicate SecureBootName(name: string) {
    |SECURE_BOOT_SUFFIX| <= |name| && name[|name| - |SECURE_BOOT_SUFFIX|..] == SECURE_BOOT_SUFFIX
  }

  /** A request for SecureBoot asks about SecureBoot names only, and no other request asks about one. */
  lemma CandidatesKeepToTheirKind(r: Request, name: string)
    requires name in Candidates(r)
    ensures SecureBootName(name) <==> r.secureBoot
  {
    if r.secureBoot {
      assert name[|name| - |SECURE_BOOT_SUFFIX|..] == SECURE_BOOT_SUFFIX;
    } else {
      assert name[|name| - 1] == 'r' && SECURE_BOOT_SUFFIX[10] == 't';
      if |name| >= |SECURE_BOOT_SUFFIX| {
        assert name[|name| - |SECURE_BOOT_SUFFIX|..][10] == 'r';
      }
    }
  }

  /** The text answers are cached under. */
  function Key(r: Request): string {
    r.platform + "/" + r.version + Flag(r.secureBoot)
  }

  lemma {:induction false} FirstSlash(p: string, x: string, q: string, y: string)
    requires '/' !in p && '/' !in q && p + "/" + x == q + "/" + y
    ensures p == q && x == y
  {
    var a := p + "/" + x;
    assert a[0] == if p == [] then '/' else p[0];
    assert a[0] == if q == [] then '/' else q[0];
    assert x == a[|p| + 1..] && y == a[|q| + 1..];
    if p != [] && q != [] {
      assert a[1..] == p[1..] + "/" + x && a[1..] == q[1..] + "/" + y;
      FirstSlash(p[1..], x, q[1..], y);
      assert p == [p[0]] + p[1..] && q == [q[0]] + q[1..];
    }
  }

  function Flag(secureBoot: bool): string {
    "/secureboot=" + if secureBoot then "true" else "false"
  }

  lemma FlagTells(v: string, a: bool, w: string, b: bool)
    requires v + Flag(a) == w + Flag(b)
    ensures v == w && a == b
  {
    var t := v + Flag(a);
    assert t[|t| - 3] == Flag(a)[|Flag(a)| - 3] && t[|t| - 3] == Flag(b)[|Flag(b)| - 3];
    assert v == t[..|t| - |Flag(a)|] && w == t[..|t| - |Flag(b)|];
  }

  /** Different questions have different keys, platforms having no slash in them. */
  lemma KeyTells(r: Request, s: Request)
    requires '/' !in r.platform && '/' !in s.platform && Key(r) == Key(s)
    ensures r == s
  {
    hide Flag;
    assert Key(r) == r.platform + "/" + (r.version + Flag(r.secureBoot));
    assert Key(s) == s.platform + "/" + (s.version + Flag(s.secureBoot));
    FirstSlash(r.platform, r.version + Flag(r.secureBoot), s.platform, s.version + Flag(s.secureBoot));
    FlagTells(r.version, r.secureBoot, s.version, s.secureBoot);
  }

  /* One resolution. */

  /** What asking one candidate gave: a status, or nothing at all. */
  datatype Answer = Status(code: nat) | Silence

  predicate Success(a: Answer) { a.Status? && a.code / 100 == 2 }

  /** The registry answered about this schematic and refused. */
  predicate Refused(a: Answer) { a.Status? && (a.code == 400 || a.code == 404) }

  /** Neither: the registry did not say. */
  predicate Unheard(a: Answer) { !Success(a) && !Refused(a) }

  datatype Resolution =
    | Resolved(repo: string, unresolved: seq<string>)
    | NotBuildable(refused: seq<string>)
    | Unavailable(last: string)

  /** Where the first success stands; the length of the list when there is none. */
  function FirstSuccess(answers: seq<Answer>): (i: nat)
    ensures i <= |answers| && (i < |answers| ==> Success(answers[i]))
    ensures forall j :: 0 <= j < i ==> !Success(answers[j])
  {
    if answers == [] then 0 else if Success(answers[0]) then 0 else 1 + FirstSuccess(answers[1..])
  }

  /** The candidates the registry said nothing about, in their order. */
  function UnheardOf(candidates: seq<string>, answers: seq<Answer>): seq<string>
    requires |candidates| == |answers|
  {
    if candidates == [] then []
    else
      var n := |candidates| - 1;
      UnheardOf(candidates[..n], answers[..n]) + if Unheard(answers[n]) then [candidates[n]] else []
  }

  /** A statement about all the answers at once, with no order but the declared one in it. */
  function Decision(candidates: seq<string>, answers: seq<Answer>): Resolution
    requires |candidates| == |answers|
  {
    var i := FirstSuccess(answers);
    if i < |answers| then Resolved(candidates[i], UnheardOf(candidates[..i], answers[..i]))
    else
      var unheard := UnheardOf(candidates, answers);
      if unheard == [] && candidates != [] then NotBuildable(candidates)
      else Unavailable(if unheard == [] then "" else unheard[|unheard| - 1])
  }

  lemma {:induction false} UnheardNone(candidates: seq<string>, answers: seq<Answer>)
    requires |candidates| == |answers|
    ensures UnheardOf(candidates, answers) == [] <==> forall i :: 0 <= i < |answers| ==> !Unheard(answers[i])
  {
    if candidates != [] {
      var n := |candidates| - 1;
      UnheardNone(candidates[..n], answers[..n]);
      assert forall i :: 0 <= i < n ==> answers[..n][i] == answers[i];
    }
  }

  /** "No installer for this schematic" is said exactly when every candidate was refused. */
  lemma NotBuildableExact(candidates: seq<string>, answers: seq<Answer>)
    requires |candidates| == |answers|
    ensures Decision(candidates, answers).NotBuildable? <==>
            candidates != [] && forall i :: 0 <= i < |answers| ==> answers[i] == Status(400) || answers[i] == Status(404)
  {
    assert forall a :: Refused(a) <==> a == Status(400) || a == Status(404);
    UnheardNone(candidates, answers);
    if candidates != [] && forall i :: 0 <= i < |answers| ==> Refused(answers[i]) {
      assert FirstSuccess(answers) == |answers|;
    }
  }

  /** What has arrived so far lies in its own candidate's slot. */
  ghost predicate Arrived(slots: seq<Option<Answer>>, answers: seq<Answer>, arrival: seq<nat>, n: nat) {
    |slots| == |answers| && n <= |arrival| &&
    (forall j :: 0 <= j < |slots| && slots[j].Some? ==> slots[j].value == answers[j]) &&
    forall k :: 0 <= k < n ==> arrival[k] < |slots| && slots[arrival[k]].Some?
  }

  /** Waits until candidate i has answered, taking in whatever answers first. */
  method Await(slots: array<Option<Answer>>, answers: seq<Answer>, arrival: seq<nat>, n: nat, i: nat)
    returns (arrived: nat)
    requires forall k :: 0 <= k < |arrival| ==> arrival[k] < |answers|
    requires i in arrival && i < slots.Length && Arrived(slots[..], answers, arrival, n)
    modifies slots
    ensures Arrived(slots[..], answers, arrival, arrived) && slots[i] == Some(answers[i])
  {
    arrived := n;
    while slots[i].None?
      invariant Arrived(slots[..], answers, arrival, arrived)
      decreases |arrival| - arrived
    {
      SomethingIsDue(arrival, arrived, i, slots[..]);
      var j := arrival[arrived];
      slots[j] := Some(answers[j]);
      arrived := arrived + 1;
    }
    assert slots[..][i].Some?;
  }

  /**
   One slot for every candidate, filled in the order of arrival and read in the declared order: the result
   is the same for every order of arrival.
   */
  method ResolveInstallerRepo(candidates: seq<string>, answers: seq<Answer>, arrival: seq<nat>) returns (r: Resolution)
    requires |candidates| == |answers|
    requires forall k :: 0 <= k < |arrival| ==> arrival[k] < |candidates|
    requires forall i :: 0 <= i < |candidates| ==> i in arrival
    ensures r == Decision(candidates, answers)
  {
    hide Arrived, FirstSuccess, Success, Refused;
    var n := |candidates|;
    var slots := new Option<Answer>[n](i => None);
    NothingArrived(slots[..], answers, arrival);
    var arrived := 0;
    var refused: seq<string> := [];
    var unresolved: seq<string> := [];
    var refusedAll := true;
    for i := 0 to n
      invariant Arrived(slots[..], answers, arrival, arrived)
      invariant forall j :: 0 <= j < i ==> !Success(answers[j])
      invariant unresolved == UnheardOf(candidates[..i], answers[..i])
      invariant refusedAll == (unresolved == [])
      invariant refusedAll ==> refused == candidates[..i]
    {
      arrived := Await(slots, answers, arrival, arrived, i);
      assert candidates[..i + 1][..i] == candidates[..i] && answers[..i + 1][..i] == answers[..i];
      var answer := slots[i].value;
      if Success(answer) {
        FirstIs(answers, i);
        return Resolved(candidates[i], unresolved);
      } else if Refused(answer) {
        refused := refused + [candidates[i]];
      } else {
        refusedAll := false;
        unresolved := unresolved + [candidates[i]];
      }
    }
    assert candidates[..n] == candidates && answers[..n] == answers;
    FirstIs(answers, n);
    if refusedAll && refused != [] {
      r := NotBuildable(refused);
    } else if unresolved != [] {
      r := Unavailable(unresolved[|unresolved| - 1]);
    } else {
      r := Unavailable("");
    }
  }

  lemma NothingArrived(slots: seq<Option<Answer>>, answers: seq<Answer>, arrival: seq<nat>)
    requires |slots| == |answers| && forall j :: 0 <= j < |slots| ==> slots[j].None?
    ensures Arrived(slots, answers, arrival, 0)
  {
  }

  lemma FirstIs(answers: seq<Answer>, i: nat)
    requires i <= |answers| && (i < |answers| ==> Success(answers[i]))
    requires forall j :: 0 <= j < i ==> !Success(answers[j])
    ensures FirstSuccess(answers) == i
  {
  }

  lemma SomethingIsDue(arrival: seq<nat>, arrived: nat, i: nat, slots: seq<Option<Answer>>)
    requires arrived <= |arrival| && i in arrival && i < |slots| && slots[i].None?
    requires forall k :: 0 <= k < arrived ==> arrival[k] < |slots| && slots[arrival[k]].Some?
    ensures arrived < |arrival|
  {
    var k :| 0 <= k < |arrival| && arrival[k] == i;
  }
}
