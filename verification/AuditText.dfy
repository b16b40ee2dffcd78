/**
 The canonical text of an audit record letter by letter: which characters are escaped and how, and the order of
 the keys.  A hash is taken over this text, so another text for the same tree would be another record.
 */
module AuditText {
  import opened Wrappers
  import opened Ordering
  import opened JsonTree
  import opened AuditJson

  /** As texts are compared: the first letter that differs decides, and a prefix comes first. */
  ghost predicate Before(a: string, b: string) {
    exists k :: 0 <= k < |b| && DiffersAt(a, b, k)
  }

  predicate DiffersAt(a: string, b: string, k: nat)
    requires k < |b|
  {
    k <= |a| && a[..k] == b[..k] && (k == |a| || a[k] < b[k])
  }

  lemma {:induction false} LessIsBefore(a: string, b: string)
    requires Less(CharRank, a, b)
    ensures Before(a, b)
  {
    if a == [] || a[0] != b[0] {
      assert a[..0] == b[..0];
      assert DiffersAt(a, b, 0);
    } else {
      LessIsBefore(a[1..], b[1..]);
      var k :| 0 <= k < |b[1..]| && DiffersAt(a[1..], b[1..], k);
      assert a[..k + 1] == [a[0]] + a[1..][..k] && b[..k + 1] == [b[0]] + b[1..][..k];
      assert DiffersAt(a, b, k + 1);
    }
  }

  /** The keys of an object, each once, rising as texts. */
  lemma KeysRise(fields: map<string, Json>)
    ensures Injective(CharRank)
    ensures var keys := SortedKeys(CharRank, fields.Keys);
            && (forall k :: k in keys <==> k in fields)
            && forall i, j :: 0 <= i < j < |keys| ==> Before(keys[i], keys[j])
  {
    RankInjective();
    KeysOf(fields);
    var keys := SortedKeys(CharRank, fields.Keys);
    forall i, j | 0 <= i < j < |keys|
      ensures Before(keys[i], keys[j])
    {
      LessIsBefore(keys[i], keys[j]);
    }
  }

  /** Only the two marks and control characters are escaped; five of those by a letter, the others by four digits. */
  lemma EscapesAre(c: char)
    ensures c != '"' && c != '\\' && c >= ' ' ==> EscapeChar(c) == [c]
    ensures EscapeChar('"') == "\\\"" && EscapeChar('\\') == "\\\\"
    ensures EscapeChar(8 as char) == "\\b" && EscapeChar('\t') == "\\t" && EscapeChar('\n') == "\\n"
    ensures EscapeChar(12 as char) == "\\f" && EscapeChar('\r') == "\\r"
    ensures c < ' ' && c !in {8 as char, '\t', '\n', 12 as char, '\r'} ==>
              |EscapeChar(c)| == 6 && EscapeChar(c)[..5] == "\\u00" + [if c as int < 16 then '0' else '1'] &&
              EscapeChar(c)[5] == "0123456789abcdef"[c as int % 16]
  {
  }

  lemma {:induction false} BeforeIsLess(a: string, b: string, k: nat)
    requires k < |b| && DiffersAt(a, b, k)
    ensures Less(CharRank, a, b)
    decreases k
  {
    if k > 0 {
      assert a[0] == a[..k][0] == b[..k][0] == b[0];
      assert a[1..][..k - 1] == a[..k][1..] && b[1..][..k - 1] == b[..k][1..];
      BeforeIsLess(a[1..], b[1..], k - 1);
    }
  }

  /** An object of two fields: the one whose key comes first, whichever it was written first. */
  lemma TwoFields(a: string, x: Json, b: string, y: Json)
    requires Before(a, b)
    ensures Write(Obj(map[b := y, a := x])) == "{" + (Quote(a) + (":" + (Write(x) + ("," + (Quote(b) + (":" + Write(y))))))) + "}"
  {
    var k :| 0 <= k < |b| && DiffersAt(a, b, k);
    BeforeIsLess(a, b, k);
    LessIrreflexive(CharRank, b);
    var fields := map[b := y, a := x];
    KeysRise(fields);
    var keys := [a, b];
    assert Elements(keys) == fields.Keys;
    assert Sorted(CharRank, keys);
    SortedUnique(CharRank, keys, SortedKeys(CharRank, fields.Keys));
    hide Write, Quote;
    TwoKeys(a, b, Obj(fields));
    WriteObject(fields, keys);
  }

  lemma WriteObject(fields: map<string, Json>, keys: seq<string>)
    requires Injective(CharRank) && keys == SortedKeys(CharRank, fields.Keys)
    ensures forall k :: k in keys ==> k in fields
    ensures Write(Obj(fields)) == "{" + WriteFields(keys, Obj(fields)) + "}"
  {
    KeysOf(fields);
    hide WriteFields;
  }

  lemma TwoKeys(a: string, b: string, v: Json)
    requires v.Obj? && a in v.fields && b in v.fields
    ensures WriteFields([a, b], v) ==
            Quote(a) + (":" + (Write(v.fields[a]) + ("," + (Quote(b) + (":" + Write(v.fields[b]))))))
  {
    hide Write, Quote;
    assert [a, b][1..] == [b];
  }
}
