/**
 Redaction of request parameters before they reach the archive: an allowlist of leaf paths, everything
 else replaced by a marker.  Strings are bytes, as the program counts them.
 */
module AuditRedact {
  import opened Octets
  import opened Wrappers
  import opened JsonTree
  import opened Splitting
  import opened Utf8

  type Value = Tree<Bytes>
  type Path = seq<Bytes>

  const MAX_PARAM_LEN := 256
  const MAX_PARAM_ITEMS := 32

  /** "<redacted>" */
  const REDACTED: Bytes := [0x3C, 0x72, 0x65, 0x64, 0x61, 0x63, 0x74, 0x65, 0x64, 0x3E]
  const MARKER: Value := Str(REDACTED)

  /** "…", three bytes of UTF-8. */
  const ELLIPSIS: Bytes := [0xE2, 0x80, 0xA6]

  /** "(truncated)" */
  const CUT_SHORT: Bytes := [0x28, 0x74, 0x72, 0x75, 0x6E, 0x63, 0x61, 0x74, 0x65, 0x64, 0x29]

  const TRUNCATED: Bytes := ELLIPSIS + CUT_SHORT

  const DOT: Byte := 0x2E

  /** "[]" at the end of an entry marks a list. */
  const LIST_SUFFIX: Bytes := [0x5B, 0x5D]

  /* The length of a value. */

  /** Where a text of more than n bytes is cut: the last rune boundary at or before n. */
  function Boundary(s: Bytes, n: nat): (cut: nat)
    requires n < |s|
    ensures cut <= n && (cut == 0 || RuneStart(s[cut])) && forall i :: cut < i <= n ==> !RuneStart(s[i])
  {
    if n == 0 || RuneStart(s[n]) then n else Boundary(s, n - 1)
  }

  function Capped(s: Bytes): (r: Bytes)
    ensures |s| <= MAX_PARAM_LEN ==> r == s
    ensures |r| <= MAX_PARAM_LEN + |TRUNCATED|
  {
    if |s| <= MAX_PARAM_LEN then s else s[..Boundary(s, MAX_PARAM_LEN)] + TRUNCATED
  }

  method CapLength(s: Bytes) returns (r: Bytes)
    ensures r == Capped(s)
  {
    if |s| <= MAX_PARAM_LEN {
      return s;
    }
    var cut := MAX_PARAM_LEN;
    while cut > 0 && !RuneStart(s[cut])
      invariant 0 <= cut <= MAX_PARAM_LEN
      invariant Boundary(s, cut) == Boundary(s, MAX_PARAM_LEN)
    {
      cut := cut - 1;
    }
    r := s[..cut] + TRUNCATED;
  }

  /** A valid text is still one when it has been cut short. */
  lemma CappedIsValid(s: Bytes)
    requires ValidUtf8(s)
    ensures ValidUtf8(Capped(s))
  {
    hide ValidUtf8, Boundary;
    if |s| > MAX_PARAM_LEN {
      var cut := Boundary(s, MAX_PARAM_LEN);
      CutIsValid(s, cut);
      MarkIsValid();
      ValidConcat(s[..cut], TRUNCATED);
    }
  }

  lemma MarkIsValid()
    ensures ValidUtf8(TRUNCATED)
  {
    hide ValidUtf8;
    EllipsisIsValid();
    AsciiIsValid(CUT_SHORT);
    ValidConcat(ELLIPSIS, CUT_SHORT);
  }

  lemma EllipsisIsValid()
    ensures ValidUtf8(ELLIPSIS)
  {
    assert ELLIPSIS[..3] == ELLIPSIS && ELLIPSIS[3..] == [];
  }

  /* The allowlist. */

  /** One entry: the path of a leaf, and whether it holds a list of identifiers. */
  datatype LeafRule = LeafRule(path: Path, list: bool)

  function RuleOf(entry: Bytes): LeafRule {
    var n := |entry| - 2;
    if n >= 0 && entry[n..] == LIST_SUFFIX then LeafRule(Split(entry[..n], DOT), true)
    else LeafRule(Split(entry, DOT), false)
  }

  function RulesOf(entries: seq<Bytes>): (rules: seq<LeafRule>)
    ensures |rules| == |entries| && forall i :: 0 <= i < |entries| ==> rules[i] == RuleOf(entries[i])
  {
    seq(|entries|, i requires 0 <= i < |entries| => RuleOf(entries[i]))
  }

  /** The rule for a leaf named exactly; the first one when there are several. */
  function PermittedLeaf(segments: Path, rules: seq<LeafRule>): (r: Option<LeafRule>)
    ensures r.Some? ==> r.value in rules && r.value.path == segments
    ensures r.None? ==> forall rule :: rule in rules ==> rule.path != segments
  {
    if rules == [] then None
    else if rules[0].path == segments then Some(rules[0])
    else PermittedLeaf(segments, rules[1..])
  }

  predicate LeadsToPermitted(segments: Path, rules: seq<LeafRule>) {
    exists rule :: rule in rules && segments < rule.path
  }

  /* Redaction. */

  predicate Scalar(v: Value) {
    v.Null? || v.Bool? || v.Num? || v.Str?
  }

  function CappedScalar(v: Value): Value
    requires Scalar(v)
  {
    if v.Str? then Str(Capped(v.s)) else v
  }

  /** What a leaf may carry: a scalar, or where it is marked one short list of scalars. */
  function PermittedValue(v: Value, list: bool): Option<Value> {
    if Scalar(v) then Some(CappedScalar(v))
    else if v.Arr? && list && |v.items| <= MAX_PARAM_ITEMS && forall i :: 0 <= i < |v.items| ==> Scalar(v.items[i]) then
      Some(Arr(seq(|v.items|, i requires 0 <= i < |v.items| => CappedScalar(v.items[i]))))
    else None
  }

  function RedactValue(segments: Path, rules: seq<LeafRule>, v: Value): Value
    decreases v
  {
    var leaf := PermittedLeaf(segments, rules);
    if leaf.Some? then
      var s := PermittedValue(v, leaf.value.list);
      if s.Some? then s.value else MARKER
    else if v.Obj? && LeadsToPermitted(segments, rules) then
      Obj(map k | k in v.fields :: RedactValue(segments + [k], rules, v.fields[k]))
    else MARKER
  }

  function Redacted(rules: seq<LeafRule>, raw: map<Bytes, Value>): (r: map<Bytes, Value>)
    ensures r.Keys == raw.Keys
  {
    map k | k in raw :: RedactValue([k], rules, raw[k])
  }

  /** The parameters of an action as they may be written; an action without an entry permits nothing. */
  method Params(allow: map<Bytes, seq<Bytes>>, action: Bytes, raw: map<Bytes, Value>) returns (out: map<Bytes, Value>)
    ensures out == Redacted(RulesOf(if action in allow then allow[action] else []), raw)
    ensures WritesTheNamed(if action in allow then allow[action] else [], raw, out)
  {
    hide RuleOf, RedactValue, Redacted, OnlyNamedIsWritten, NamedIsWritten;
    var entries := if action in allow then allow[action] else [];
    var permitted: seq<LeafRule> := [];
    for i := 0 to |entries|
      invariant |permitted| == i && forall j :: 0 <= j < i ==> permitted[j] == RuleOf(entries[j])
    {
      permitted := permitted + [RuleOf(entries[i])];
    }
    assert permitted == RulesOf(entries);
    out := map[];
    var keys := raw.Keys;
    while keys != {}
      invariant keys <= raw.Keys && out.Keys == raw.Keys - keys
      invariant forall k :: k in out ==> out[k] == RedactValue([k], permitted, raw[k])
    {
      var k :| k in keys;
      out := out[k := RedactValue([k], permitted, raw[k])];
      keys := keys - {k};
    }
    RedactedIs(permitted, raw, out);
    forall path
      ensures OnlyNamedIsWritten(entries, raw, out, path) && NamedIsWritten(entries, raw, out, path)
    {
      WrittenIsNamed(entries, raw, path);
      NamedAreWritten(entries, raw, path);
    }
  }

  lemma RedactedIs(rules: seq<LeafRule>, raw: map<Bytes, Value>, out: map<Bytes, Value>)
    requires out.Keys == raw.Keys && forall k :: k in out ==> out[k] == RedactValue([k], rules, raw[k])
    ensures out == Redacted(rules, raw)
  {
    hide RedactValue;
  }

  /* What the output may depend on. */

  /** The value at the end of a path of object keys. */
  function Lookup(v: Value, path: Path): Option<Value>
    decreases |path|
  {
    if path == [] then Some(v)
    else if v.Obj? && path[0] in v.fields then Lookup(v.fields[path[0]], path[1..])
    else None
  }

  /** What a leaf shows of the value it has, if it has one. */
  function Shown(v: Option<Value>, list: bool): Option<Option<Value>> {
    if v.None? then None else Some(PermittedValue(v.value, list))
  }

  /** Two values that are both objects with the same keys, or both not objects, or both absent. */
  predicate SameShape(a: Option<Value>, b: Option<Value>) {
    if a.Some? && a.value.Obj? then b.Some? && b.value.Obj? && a.value.fields.Keys == b.value.fields.Keys
    else a.Some? == b.Some? && (b.Some? ==> !b.value.Obj?)
  }

  /** Agreement at a path below `at`: at a leaf on what it shows, on the way to one on the keys. */
  ghost predicate AgreeAt(rules: seq<LeafRule>, at: Path, a: Value, b: Value, path: Path) {
    var leaf := PermittedLeaf(at + path, rules);
    (leaf.Some? ==> Shown(Lookup(a, path), leaf.value.list) == Shown(Lookup(b, path), leaf.value.list)) &&
    (LeadsToPermitted(at + path, rules) ==> SameShape(Lookup(a, path), Lookup(b, path)))
  }

  ghost predicate Agree(rules: seq<LeafRule>, at: Path, a: Value, b: Value) {
    forall path :: AgreeAt(rules, at, a, b, path)
  }

  lemma AgreeBelow(rules: seq<LeafRule>, at: Path, a: Value, b: Value, k: Bytes)
    requires Agree(rules, at, a, b) && a.Obj? && b.Obj? && k in a.fields && k in b.fields
    ensures Agree(rules, at + [k], a.fields[k], b.fields[k])
  {
    forall path: Path
      ensures AgreeAt(rules, at + [k], a.fields[k], b.fields[k], path)
    {
      assert AgreeAt(rules, at, a, b, [k] + path);
      assert at + [k] + path == at + ([k] + path);
      assert ([k] + path)[1..] == path;
    }
  }

  lemma {:induction false} AgreeRedactsAlike(rules: seq<LeafRule>, at: Path, a: Value, b: Value)
    requires Agree(rules, at, a, b)
    ensures RedactValue(at, rules, a) == RedactValue(at, rules, b)
    decreases a
  {
    assert AgreeAt(rules, at, a, b, []);
    assert at + [] == at;
    if PermittedLeaf(at, rules).None? && LeadsToPermitted(at, rules) && a.Obj? {
      forall k | k in a.fields
        ensures RedactValue(at + [k], rules, a.fields[k]) == RedactValue(at + [k], rules, b.fields[k])
      {
        AgreeBelow(rules, at, a, b, k);
        AgreeRedactsAlike(rules, at + [k], a.fields[k], b.fields[k]);
      }
    }
  }

  /**
   The output depends only on what is permitted: two bodies with the same top-level keys that agree on what
   the allowlisted leaves show and on the keys of the objects leading to them are written alike.
   */
  lemma DependsOnPermitted(rules: seq<LeafRule>, a: map<Bytes, Value>, b: map<Bytes, Value>)
    requires a.Keys == b.Keys && forall k :: k in a ==> Agree(rules, [k], a[k], b[k])
    ensures Redacted(rules, a) == Redacted(rules, b)
  {
    forall k | k in a
      ensures RedactValue([k], rules, a[k]) == RedactValue([k], rules, b[k])
    {
      AgreeRedactsAlike(rules, [k], a[k], b[k]);
    }
  }

  /* Where what is written comes from. */

  lemma {:induction false} ValueComesFrom(rules: seq<LeafRule>, at: Path, v: Value, path: Path)
    requires Lookup(RedactValue(at, rules, v), path).Some?
    ensures var out := Lookup(RedactValue(at, rules, v), path).value;
            out == MARKER || out.Obj? ||
            (PermittedLeaf(at + path, rules).Some? && Lookup(v, path).Some? &&
             PermittedValue(Lookup(v, path).value, PermittedLeaf(at + path, rules).value.list) == Some(out))
    decreases |path|
  {
    if path == [] {
      assert at + path == at;
    } else {
      assert at + [path[0]] + path[1..] == at + path;
      ValueComesFrom(rules, at + [path[0]], v.fields[path[0]], path[1..]);
    }
  }

  /**
   Whatever is written that is neither the marker nor an object stands at a path the allowlist names, and
   is what that leaf shows of the value sent at the same path.
   */
  lemma Provenance(rules: seq<LeafRule>, raw: map<Bytes, Value>, path: Path)
    requires Lookup(Obj(Redacted(rules, raw)), path).Some?
    ensures var out := Lookup(Obj(Redacted(rules, raw)), path).value;
            out == MARKER || out.Obj? ||
            (PermittedLeaf(path, rules).Some? && Lookup(Obj(raw), path).Some? &&
             PermittedValue(Lookup(Obj(raw), path).value, PermittedLeaf(path, rules).value.list) == Some(out))
  {
    if path != [] {
      assert [path[0]] + path[1..] == path;
      ValueComesFrom(rules, [path[0]], raw[path[0]], path[1..]);
    }
  }

  /** A scalar that cannot hold much. */
  predicate Short(v: Value) {
    Scalar(v) && (v.Str? ==> |v.s| <= MAX_PARAM_LEN + |TRUNCATED|)
  }

  /** What a leaf shows is one short scalar, or where it is marked a list of at most so many: never a structure. */
  lemma ShownIsFlat(v: Value, list: bool)
    requires PermittedValue(v, list).Some?
    ensures var out := PermittedValue(v, list).value;
            Short(out) ||
            (list && out.Arr? && v.Arr? && |out.items| == |v.items| <= MAX_PARAM_ITEMS &&
             forall i :: 0 <= i < |out.items| ==> Short(out.items[i]))
  {
    hide Capped;
    var out := PermittedValue(v, list).value;
    if out.Arr? {
      forall i | 0 <= i < |out.items|
        ensures Short(out.items[i])
      {
        assert out.items[i] == CappedScalar(v.items[i]);
      }
    }
  }

  /* What the entries permit, said of their texts and of what was sent. */

  predicate NoDots(path: Path) {
    forall i :: 0 <= i < |path| ==> 0x2E !in path[i]
  }

  /** An entry names the path: its segments with dots between them. */
  predicate NamesValue(entries: seq<Bytes>, path: Path) {
    path != [] && NoDots(path) && Join(path, 0x2E) in entries && !EndsAsList(Join(path, 0x2E))
  }

  /** An entry names the path and marks a list: the same with "[]" behind it. */
  predicate NamesList(entries: seq<Bytes>, path: Path) {
    path != [] && NoDots(path) && Join(path, 0x2E) + [0x5B, 0x5D] in entries
  }

  predicate EndsAsList(entry: Bytes) {
    |entry| >= 2 && entry[|entry| - 2..] == [0x5B, 0x5D]
  }

  predicate Names(entries: seq<Bytes>, path: Path) {
    NamesValue(entries, path) || NamesList(entries, path)
  }

  /** At most 256 bytes as they are; of more the whole characters that fit, and a mark. */
  ghost predicate CutTo(s: Bytes, r: Bytes) {
    if |s| <= 256 then r == s
    else exists n :: 0 <= n <= 256 && CutAt(s, n, r)
  }

  predicate CutAt(s: Bytes, n: nat, r: Bytes)
    requires n <= 256 < |s|
  {
    && r == s[..n] + [0xE2, 0x80, 0xA6, 0x28, 0x74, 0x72, 0x75, 0x6E, 0x63, 0x61, 0x74, 0x65, 0x64, 0x29]
    && (n == 0 || !(0x80 <= s[n] < 0xC0))
    && forall i :: n < i <= 256 ==> 0x80 <= s[i] < 0xC0
  }

  predicate AllFlat(items: seq<Value>) {
    forall i :: 0 <= i < |items| ==> !items[i].Arr? && !items[i].Obj?
  }

  /** A value that is neither a list nor an object, as it is written. */
  ghost predicate WrittenAs(sent: Value, v: Value) {
    && !sent.Arr? && !sent.Obj?
    && if sent.Str? then v.Str? && CutTo(sent.s, v.s) else v == sent
  }

  ghost predicate ListWrittenAs(sent: Value, v: Value) {
    && sent.Arr? && |sent.items| <= 32 && v.Arr? && |v.items| == |sent.items|
    && forall i :: 0 <= i < |sent.items| ==> WrittenAs(sent.items[i], v.items[i])
  }

  /**
   What stands at a path of the output: nothing that was not sent there; the marker; an object, on the way to a
   path that is named; or at a named path the value that was sent, or the list where a list is marked.
   */
  ghost predicate OnlyNamedIsWritten(entries: seq<Bytes>, raw: map<Bytes, Value>, out: map<Bytes, Value>, path: Path) {
    path != [] && Lookup(Obj(out), path).Some? ==>
      var v, sent := Lookup(Obj(out), path).value, Lookup(Obj(raw), path);
      && sent.Some?
      && (|| v == Str([0x3C, 0x72, 0x65, 0x64, 0x61, 0x63, 0x74, 0x65, 0x64, 0x3E])
          || (v.Obj? && sent.value.Obj? && v.fields.Keys == sent.value.fields.Keys && exists full :: path < full && Names(entries, full))
          || (Names(entries, path) && WrittenAs(sent.value, v))
          || (NamesList(entries, path) && ListWrittenAs(sent.value, v)))
  }

  /** No shorter path on the way is named: it would be a leaf, and an object at a leaf is not walked. */
  predicate NothingNamedAbove(entries: seq<Bytes>, path: Path) {
    forall n :: 0 < n < |path| ==> !Names(entries, path[..n])
  }

  /** What is sent at a named path is written there; a list or an object only where a list is marked and as one. */
  ghost predicate NamedIsWritten(entries: seq<Bytes>, raw: map<Bytes, Value>, out: map<Bytes, Value>, path: Path) {
    Names(entries, path) && NothingNamedAbove(entries, path) && Lookup(Obj(raw), path).Some? ==>
      var v, sent := Lookup(Obj(out), path), Lookup(Obj(raw), path).value;
      && v.Some?
      && (!sent.Arr? && !sent.Obj? ==> WrittenAs(sent, v.value))
      && (sent.Arr? && !NamesValue(entries, path) && |sent.items| <= 32 && AllFlat(sent.items) ==> ListWrittenAs(sent, v.value))
      && (sent.Obj? ==> v.value == MARKER)
      && (sent.Arr? && (!NamesList(entries, path) || |sent.items| > 32 || !AllFlat(sent.items)) ==> v.value == MARKER)
  }

  ghost predicate WritesTheNamed(entries: seq<Bytes>, raw: map<Bytes, Value>, out: map<Bytes, Value>) {
    forall path :: OnlyNamedIsWritten(entries, raw, out, path) && NamedIsWritten(entries, raw, out, path)
  }

  lemma SplitOnce(path: Path, entry: Bytes)
    requires path != []
    ensures Split(entry, DOT) == path <==> NoDots(path) && Join(path, DOT) == entry
  {
    if Split(entry, DOT) == path {
      SplitIsExact(entry, DOT);
    }
    if NoDots(path) && Join(path, DOT) == entry {
      JoinSplits(path, DOT);
    }
  }

  /** The rule of an entry, read off its text. */
  lemma RuleIs(entry: Bytes, path: Path, list: bool)
    requires path != []
    ensures RuleOf(entry) == LeafRule(path, list) <==>
            NoDots(path) && if list then entry == Join(path, DOT) + [0x5B, 0x5D] else entry == Join(path, DOT) && !EndsAsList(entry)
  {
    var n := |entry| - 2;
    hide Split, Join;
    if n >= 0 && entry[n..] == LIST_SUFFIX {
      SplitOnce(path, entry[..n]);
      assert entry == entry[..n] + [0x5B, 0x5D];
      assert EndsAsList(entry);
      if entry == Join(path, DOT) + [0x5B, 0x5D] {
        assert entry[..n] == Join(path, DOT);
      }
    } else {
      SplitOnce(path, entry);
      assert forall t: Bytes :: entry == t + [0x5B, 0x5D] ==> EndsAsList(entry);
    }
  }

  lemma RulesAre(entries: seq<Bytes>, path: Path, list: bool)
    requires path != []
    ensures LeafRule(path, list) in RulesOf(entries) <==> if list then NamesList(entries, path) else NamesValue(entries, path)
  {
    hide RuleOf, EndsAsList, NoDots, Join;
    var rules := RulesOf(entries);
    if LeafRule(path, list) in rules {
      var i :| 0 <= i < |rules| && rules[i] == LeafRule(path, list);
      RuleIs(entries[i], path, list);
      assert entries[i] in entries;
    }
    var entry := if list then Join(path, DOT) + [0x5B, 0x5D] else Join(path, DOT);
    if (if list then NamesList(entries, path) else NamesValue(entries, path)) {
      var i :| 0 <= i < |entries| && entries[i] == entry;
      RuleIs(entry, path, list);
      assert rules[i] == LeafRule(path, list);
    }
  }

  /** A path is a leaf exactly when an entry names it, and a list only when one marks it. */
  lemma LeafIsNamed(entries: seq<Bytes>, path: Path)
    requires path != []
    ensures var leaf := PermittedLeaf(path, RulesOf(entries));
            && (leaf.Some? <==> Names(entries, path))
            && (leaf.Some? ==> if leaf.value.list then NamesList(entries, path) else NamesValue(entries, path))
  {
    hide NamesList, NamesValue, RulesOf, PermittedLeaf;
    var rules := RulesOf(entries);
    RulesAre(entries, path, true);
    RulesAre(entries, path, false);
    var leaf := PermittedLeaf(path, rules);
    if leaf.Some? {
      assert leaf.value == LeafRule(path, leaf.value.list);
    } else {
      assert LeafRule(path, true).path == LeafRule(path, false).path == path;
    }
  }

  lemma LeadsToNamed(entries: seq<Bytes>, path: Path)
    requires LeadsToPermitted(path, RulesOf(entries))
    ensures exists full :: path < full && Names(entries, full)
  {
    hide NamesList, NamesValue, RulesOf;
    var rule :| rule in RulesOf(entries) && path < rule.path;
    RulesAre(entries, rule.path, rule.list);
    assert Names(entries, rule.path);
  }

  lemma CappedIs(s: Bytes)
    ensures CutTo(s, Capped(s))
  {
    if |s| > 256 {
      assert CutAt(s, Boundary(s, MAX_PARAM_LEN), Capped(s));
    }
  }

  /** What a leaf may carry, as it is written. */
  lemma PermittedIs(v: Value, list: bool)
    ensures var r := PermittedValue(v, list);
            && (r.Some? <==> (!v.Arr? && !v.Obj?) || (list && v.Arr? && |v.items| <= 32 && AllFlat(v.items)))
            && (r.Some? && !v.Arr? ==> WrittenAs(v, r.value))
            && (r.Some? && v.Arr? ==> ListWrittenAs(v, r.value))
  {
    hide Capped, CutTo;
    if v.Str? {
      CappedIs(v.s);
    }
    if v.Arr? {
      forall i | 0 <= i < |v.items| && v.items[i].Str?
        ensures CutTo(v.items[i].s, Capped(v.items[i].s))
      {
        CappedIs(v.items[i].s);
      }
    }
  }

  /** Down a path on which nothing is a leaf, to one that is: every object on the way is walked. */
  lemma {:induction false} WalksDown(rules: seq<LeafRule>, at: Path, v: Value, path: Path)
    requires Lookup(v, path).Some? && PermittedLeaf(at + path, rules).Some?
    requires forall n :: 0 <= n < |path| ==> PermittedLeaf(at + path[..n], rules).None?
    ensures Lookup(RedactValue(at, rules, v), path) == Some(RedactValue(at + path, rules, Lookup(v, path).value))
    decreases |path|
  {
    if path == [] {
      assert at + path == at;
    } else {
      assert at + path[..0] == at;
      var leaf := PermittedLeaf(at + path, rules).value;
      assert leaf in rules && at < leaf.path;
      var next, rest := at + [path[0]], path[1..];
      assert next + rest == at + path;
      forall n | 0 <= n < |rest|
        ensures PermittedLeaf(next + rest[..n], rules).None?
      {
        assert next + rest[..n] == at + path[..n + 1];
      }
      WalksDown(rules, next, v.fields[path[0]], rest);
    }
  }

  /** An object that is written stands on the way to a leaf, and has the keys of the one that was sent. */
  lemma {:induction false} ObjectsLeadOn(rules: seq<LeafRule>, at: Path, v: Value, path: Path)
    requires Lookup(RedactValue(at, rules, v), path).Some?
    ensures Lookup(v, path).Some?
    ensures var out := Lookup(RedactValue(at, rules, v), path).value;
            out.Obj? ==> LeadsToPermitted(at + path, rules) && Lookup(v, path).value.Obj? &&
                         out.fields.Keys == Lookup(v, path).value.fields.Keys
    decreases |path|
  {
    if path == [] {
      assert at + path == at;
    } else {
      assert at + [path[0]] + path[1..] == at + path;
      ObjectsLeadOn(rules, at + [path[0]], v.fields[path[0]], path[1..]);
    }
  }

  lemma WrittenIsNamed(entries: seq<Bytes>, raw: map<Bytes, Value>, path: Path)
    ensures OnlyNamedIsWritten(entries, raw, Redacted(RulesOf(entries), raw), path)
  {
    hide RulesOf, Names, NamesList, PermittedValue, RedactValue, WrittenAs, ListWrittenAs;
    var rules := RulesOf(entries);
    var out := Redacted(rules, raw);
    if path != [] && Lookup(Obj(out), path).Some? {
      assert [path[0]] + path[1..] == path;
      ObjectsLeadOn(rules, [path[0]], raw[path[0]], path[1..]);
      Provenance(rules, raw, path);
      LeafIsNamed(entries, path);
      var v, sent := Lookup(Obj(out), path).value, Lookup(Obj(raw), path).value;
      if v.Obj? {
        LeadsToNamed(entries, path);
      } else if v != MARKER {
        PermittedIs(sent, PermittedLeaf(path, rules).value.list);
      }
    }
  }

  lemma NamedAreWritten(entries: seq<Bytes>, raw: map<Bytes, Value>, path: Path)
    ensures NamedIsWritten(entries, raw, Redacted(RulesOf(entries), raw), path)
  {
    hide RulesOf, Names, NamesList, NamesValue, PermittedValue, WrittenAs, ListWrittenAs;
    var rules := RulesOf(entries);
    if Names(entries, path) && NothingNamedAbove(entries, path) && Lookup(Obj(raw), path).Some? {
      NamedIsSome(entries, path);
      var at, rest := [path[0]], path[1..];
      assert at + rest == path;
      LeafIsNamed(entries, path);
      forall n | 0 <= n < |rest|
        ensures PermittedLeaf(at + rest[..n], rules).None?
      {
        assert at + rest[..n] == path[..n + 1];
        LeafIsNamed(entries, path[..n + 1]);
      }
      WalksDown(rules, at, raw[path[0]], rest);
      PermittedIs(Lookup(Obj(raw), path).value, PermittedLeaf(path, rules).value.list);
    }
  }

  lemma NamedIsSome(entries: seq<Bytes>, path: Path)
    requires Names(entries, path)
    ensures path != [] && (NamesValue(entries, path) || NamesList(entries, path))
  {
  }

  /* Keys with dots. */

  ghost predicate Dotted(path: Path) {
    exists i :: 0 <= i < |path| && DOT in path[i]
  }

  lemma RulesHaveNoDots(entries: seq<Bytes>, rule: LeafRule)
    requires rule in RulesOf(entries)
    ensures !Dotted(rule.path)
  {
    var i :| 0 <= i < |entries| && rule == RuleOf(entries[i]);
    var entry := entries[i];
    SplitIsExact(entry, DOT);
    if |entry| >= 2 {
      SplitIsExact(entry[..|entry| - 2], DOT);
    }
  }

  lemma DottedStays(at: Path, path: Path)
    ensures at <= path && Dotted(at) ==> Dotted(path)
  {
    if at <= path && Dotted(at) {
      var i :| 0 <= i < |at| && DOT in at[i];
      assert path[i] == at[i];
    }
  }

  /** A key with a dot in it never stands for a nested path: what is sent under it is never written. */
  lemma DottedKeyIsRedacted(entries: seq<Bytes>, at: Path, v: Value)
    requires Dotted(at)
    ensures RedactValue(at, RulesOf(entries), v) == MARKER
  {
    var rules := RulesOf(entries);
    forall rule | rule in rules
      ensures rule.path != at && !(at < rule.path)
    {
      RulesHaveNoDots(entries, rule);
      DottedStays(at, rule.path);
    }
  }

  /* The reason an outcome names. */

  const MAX_CODE_LEN := 64

  predicate CodeChar(c: char) {
    'a' <= c <= 'z' || '0' <= c <= '9' || c == '.' || c == '-' || c == '_'
  }

  predicate IsCodeToken(s: string) {
    0 < |s| <= MAX_CODE_LEN && forall i :: 0 <= i < |s| ==> CodeChar(s[i])
  }

  /** A code of the taxonomy is kept, free text is replaced whole. */
  function OutcomeCause(s: string): (r: string)
    ensures var code := 0 < |s| <= 64 && forall i :: 0 <= i < |s| ==>
              'a' <= s[i] <= 'z' || '0' <= s[i] <= '9' || s[i] == '.' || s[i] == '-' || s[i] == '_';
            r == if code then s else "<redacted>"
  {
    if IsCodeToken(s) then s else "<redacted>"
  }
}
