/**
 One line of the audit log, and the text of it that is hashed: every field but the hash itself, as one
 canonical JSON object.
 */
module AuditRecord {
  import opened Wrappers
  import opened Decimals
  import opened Ordering
  import opened JsonTree
  import opened AuditJson

  /** `ts` is the instant as RFC 3339 writes it in UTC; absent parameters and empty ones are the same map. */
  datatype Record = Record(
    seqNo: nat, ts: string, actor: string, session: string, srcIP: string, clusterID: string, machineID: string,
    action: string, params: map<string, Json>, jobID: string, outcome: string, prevHash: string, hash: string)

  /* Sequence numbers. */

  lemma {:induction false} AllDigits(s: string)
    requires forall i :: 0 <= i < |s| ==> Digit(s[i])
    ensures Digits(s) == |s|
  {
    if s != [] {
      AllDigits(s[1..]);
    }
  }

  lemma DecimalIsNumber(n: nat)
    ensures ValidNumber(Decimal(n))
  {
    DecimalDigits(n);
    var s := Decimal(n);
    AllDigits(s);
    if n == 0 {
      assert s == "0" && s[1..] == [];
    } else {
      assert s[Digits(s)..] == [];
    }
    assert ValidFraction([]);
  }

  /* The record as an object. */

  function CanonicalFields(r: Record): map<string, Json> {
    map[
      "seq" := Num(Decimal(r.seqNo)),
      "ts" := Str(r.ts),
      "actor" := Str(r.actor),
      "session" := Str(r.session),
      "src_ip" := Str(r.srcIP),
      "cluster_id" := Str(r.clusterID),
      "machine_id" := Str(r.machineID),
      "action" := Str(r.action),
      "params" := Obj(r.params),
      "job_id" := Str(r.jobID),
      "outcome" := Str(r.outcome),
      "prev_hash" := Str(r.prevHash)
    ]
  }

  ghost function Canonical(r: Record): string {
    Write(Obj(CanonicalFields(r)))
  }

  /** The parameters hold only numbers a decoder can have kept. */
  ghost predicate Sane(r: Record) {
    Decoded(Obj(r.params))
  }

  method CanonicalJSON(r: Record) returns (out: string)
    ensures out == Canonical(r)
  {
    out := WriteCanonical([], Obj(CanonicalFields(r)));
    assert out == [] + Canonical(r) == Canonical(r);
  }

  lemma FieldsDecoded(r: Record)
    requires Sane(r)
    ensures Decoded(Obj(CanonicalFields(r)))
  {
    DecimalIsNumber(r.seqNo);
    hide Decimal, ValidNumber;
  }

  lemma WhoTells(r: Record, s: Record)
    requires CanonicalFields(r) == CanonicalFields(s)
    ensures r.actor == s.actor && r.session == s.session && r.srcIP == s.srcIP
  {
    hide Decimal;
    var f, g := CanonicalFields(r), CanonicalFields(s);
    assert f["actor"] == g["actor"] && f["session"] == g["session"] && f["src_ip"] == g["src_ip"];
  }

  lemma WhatTells(r: Record, s: Record)
    requires CanonicalFields(r) == CanonicalFields(s)
    ensures r.action == s.action && r.params == s.params && r.outcome == s.outcome
  {
    hide Decimal;
    var f, g := CanonicalFields(r), CanonicalFields(s);
    assert f["action"] == g["action"] && f["params"] == g["params"] && f["outcome"] == g["outcome"];
  }

  lemma WhereTells(r: Record, s: Record)
    requires CanonicalFields(r) == CanonicalFields(s)
    ensures r.clusterID == s.clusterID && r.machineID == s.machineID && r.jobID == s.jobID
  {
    hide Decimal;
    var f, g := CanonicalFields(r), CanonicalFields(s);
    assert f["cluster_id"] == g["cluster_id"] && f["machine_id"] == g["machine_id"] && f["job_id"] == g["job_id"];
  }

  lemma WhenTells(r: Record, s: Record)
    requires CanonicalFields(r) == CanonicalFields(s)
    ensures r.seqNo == s.seqNo && r.ts == s.ts && r.prevHash == s.prevHash
  {
    hide Decimal;
    var f, g := CanonicalFields(r), CanonicalFields(s);
    assert f["seq"] == g["seq"] && f["ts"] == g["ts"] && f["prev_hash"] == g["prev_hash"];
    DecimalReads(r.seqNo);
    DecimalReads(s.seqNo);
  }

  /** Two records with one canonical text differ in nothing but, at most, their hash field. */
  lemma CanonicalTells(r: Record, s: Record)
    requires Sane(r) && Sane(s) && Canonical(r) == Canonical(s)
    ensures r == s.(hash := r.hash)
  {
    hide CanonicalFields, Write, Decoded;
    FieldsDecoded(r);
    FieldsDecoded(s);
    WriteInjective(Obj(CanonicalFields(r)), Obj(CanonicalFields(s)));
    WhoTells(r, s);
    WhatTells(r, s);
    WhereTells(r, s);
    WhenTells(r, s);
  }

  /**
   What a reader of the text finds: an object of exactly these twelve fields, each with the part of the record
   it is named after.
   */
  lemma CanonicalReadsAs(r: Record) returns (fields: map<string, Json>)
    requires Sane(r)
    ensures Read(Canonical(r)) == Some(Got(Obj(fields), []))
    ensures fields.Keys == {"seq", "ts", "actor", "session", "src_ip", "cluster_id", "machine_id", "action", "params",
                            "job_id", "outcome", "prev_hash"}
    ensures fields["seq"] == Num(Decimal(r.seqNo)) && fields["ts"] == Str(r.ts)
    ensures fields["actor"] == Str(r.actor) && fields["session"] == Str(r.session) && fields["src_ip"] == Str(r.srcIP)
    ensures fields["cluster_id"] == Str(r.clusterID) && fields["machine_id"] == Str(r.machineID)
    ensures fields["action"] == Str(r.action) && fields["params"] == Obj(r.params)
    ensures fields["job_id"] == Str(r.jobID) && fields["outcome"] == Str(r.outcome)
    ensures fields["prev_hash"] == Str(r.prevHash)
  {
    hide *;
    fields := FieldsAreNamed(r);
    FieldsDecoded(r);
    CanonicalReads(r);
  }

  lemma CanonicalReads(r: Record)
    requires Decoded(Obj(CanonicalFields(r)))
    ensures Read(Canonical(r)) == Some(Got(Obj(CanonicalFields(r)), []))
  {
    hide CanonicalFields, Read, Write, Decoded;
    RoundTrip(Obj(CanonicalFields(r)), []);
    assert Canonical(r) + [] == Canonical(r);
  }

  lemma FieldsAreNamed(r: Record) returns (fields: map<string, Json>)
    ensures fields == CanonicalFields(r)
    ensures fields.Keys == {"seq", "ts", "actor", "session", "src_ip", "cluster_id", "machine_id", "action", "params",
                            "job_id", "outcome", "prev_hash"}
    ensures fields["seq"] == Num(Decimal(r.seqNo)) && fields["ts"] == Str(r.ts)
    ensures fields["actor"] == Str(r.actor) && fields["session"] == Str(r.session) && fields["src_ip"] == Str(r.srcIP)
    ensures fields["cluster_id"] == Str(r.clusterID) && fields["machine_id"] == Str(r.machineID)
    ensures fields["action"] == Str(r.action) && fields["params"] == Obj(r.params)
    ensures fields["job_id"] == Str(r.jobID) && fields["outcome"] == Str(r.outcome)
    ensures fields["prev_hash"] == Str(r.prevHash)
  {
    hide Decimal;
    fields := CanonicalFields(r);
  }
}
