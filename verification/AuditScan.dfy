/**
 Where a canonical record begins.  The hash of a record is taken over the previous hash followed by the
 canonical text, with nothing in between.  A scanner that only counts brackets and knows strings shows
 that no canonical record ends with a shorter one, so the two parts can be told apart whatever the
 previous hash looks like.
 */
module AuditScan {
  import opened Ordering
  import opened JsonTree
  import opened AuditJson
  import opened AuditRecord

  /** d counts open brackets.  After: a string has just closed.  Esc: behind a backslash. */
  datatype State = Start | Out(d: nat) | After(d: nat) | In(d: nat) | Esc(d: nat) | Done | Bad

  function Close(d: nat): State {
    if d == 0 then Bad else if d == 1 then Done else Out(d - 1)
  }

  function Step(s: State, c: char): State {
    match s
    case Start => if c == '{' then Out(1) else Bad
    case Out(d) =>
      if c == '"' then In(d)
      else if c == '{' || c == '[' then Out(d + 1)
      else if c == '}' || c == ']' then Close(d)
      else Out(d)
    case After(d) =>
      if c == ',' || c == ':' then Out(d)
      else if c == '}' || c == ']' then Close(d)
      else Bad
    case In(d) => if c == '"' then After(d) else if c == '\\' then Esc(d) else In(d)
    case Esc(d) => In(d)
    case Done => Bad
    case Bad => Bad
  }

  function Scan(s: State, t: string): State
    decreases t
  {
    if t == [] then s else Scan(Step(s, t[0]), t[1..])
  }

  lemma {:induction false} ScanConcat(s: State, t: string, u: string)
    ensures Scan(s, t + u) == Scan(Scan(s, t), u)
    decreases t
  {
    if t == [] {
      assert t + u == u;
    } else {
      assert (t + u)[1..] == t[1..] + u;
      ScanConcat(Step(s, t[0]), t[1..], u);
    }
  }

  lemma ScanOne(s: State, c: char)
    ensures Scan(s, [c]) == Step(s, c)
  {
    assert [c][1..] == [];
    assert Scan(Step(s, c), []) == Step(s, c);
  }

  lemma {:induction false} ScanPlain(d: nat, t: string)
    requires forall i :: 0 <= i < |t| ==> t[i] !in "\"{[}]"
    ensures Scan(Out(d), t) == Out(d)
  {
    if t != [] {
      assert t[0] !in "\"{[}]";
      ScanPlain(d, t[1..]);
    }
  }

  /* Strings. */

  lemma {:induction false} ScanInside(d: nat, t: string)
    requires forall i :: 0 <= i < |t| ==> t[i] != '"' && t[i] != '\\'
    ensures Scan(In(d), t) == In(d)
  {
    if t != [] {
      ScanInside(d, t[1..]);
    }
  }

  lemma ScanChar(d: nat, c: char)
    ensures Scan(In(d), EscapeChar(c)) == In(d)
  {
    var e := EscapeChar(c);
    if e[0] == '\\' {
      assert Scan(In(d), e) == Scan(Esc(d), e[1..]) == Scan(In(d), e[1..][1..]);
      assert e[1..][1..] == e[2..];
      ScanInside(d, e[2..]);
    } else {
      ScanInside(d, e);
    }
  }

  lemma {:induction false} ScanEscaped(d: nat, s: string)
    ensures Scan(In(d), Escape(s)) == In(d)
  {
    if s != [] {
      ScanChar(d, s[0]);
      ScanEscaped(d, s[1..]);
      ScanConcat(In(d), EscapeChar(s[0]), Escape(s[1..]));
    }
  }

  lemma ScanQuote(d: nat, s: string)
    ensures Scan(Out(d), Quote(s)) == After(d)
  {
    hide Scan, Escape;
    ScanOne(Out(d), '"');
    ScanEscaped(d, s);
    ScanOne(In(d), '"');
    ScanConcat(Out(d), "\"", Escape(s));
    ScanConcat(Out(d), "\"" + Escape(s), "\"");
  }

  /* Values. */

  /** The state behind a value: only a string leaves the scanner waiting for a separator. */
  function Behind(d: nat, v: Json): State {
    if v.Str? then After(d) else Out(d)
  }

  lemma ScanWord(d: nat, v: Json)
    requires v.Null? || v.Bool? || v.Num?
    requires Decoded(v)
    ensures Scan(Out(d), Write(v)) == Out(d)
  {
    hide Scan, ValidNumber;
    if v.Num? {
      NumberChars(v.lit);
    }
    ScanPlain(d, Write(v));
  }

  lemma {:induction false} ScanValue(d: nat, v: Json)
    requires d > 0 && Decoded(v)
    ensures Scan(Out(d), Write(v)) == Behind(d, v)
    decreases v, 2
  {
    match v
    case Str(s) => ScanQuote(d, s);
    case Arr(items) => ScanArray(d, items);
    case Obj(fields) => ScanObject(d, v);
    case _ => ScanWord(d, v);
  }

  lemma ScanThree(s: State, open: char, inner: string, close: char)
    ensures Scan(s, [open] + inner + [close]) == Step(Scan(Step(s, open), inner), close)
  {
    hide Scan, Step;
    ScanOne(s, open);
    ScanConcat(s, [open], inner);
    ScanConcat(s, [open] + inner, [close]);
    ScanOne(Scan(s, [open] + inner), close);
  }

  /** A list between brackets, given that the scanner stands where a value may end. */
  lemma ScanBrackets(d: nat, open: char, inner: string, close: char)
    requires (open == '{' || open == '[') && (close == '}' || close == ']')
    requires Scan(Out(d + 1), inner) == Out(d + 1) || Scan(Out(d + 1), inner) == After(d + 1)
    ensures Scan(Out(d), [open] + inner + [close]) == Close(d + 1)
    ensures d == 0 && open == '{' ==> Scan(Start, [open] + inner + [close]) == Done
  {
    hide Scan;
    ScanThree(Out(d), open, inner, close);
    ScanThree(Start, open, inner, close);
  }

  lemma {:induction false} ScanArray(d: nat, items: seq<Json>)
    requires d > 0 && forall i :: 0 <= i < |items| ==> Decoded(items[i])
    ensures Scan(Out(d), Write(Arr(items))) == Out(d)
    decreases items, 2
  {
    ScanItems(d + 1, items);
    assert Write(Arr(items)) == ['['] + WriteItems(items) + [']'];
    ScanBrackets(d, '[', WriteItems(items), ']');
  }

  lemma ScanComma(s: State, first: string, rest: string)
    requires s.Out? && (Scan(s, first) == Out(s.d) || Scan(s, first) == After(s.d))
    ensures Scan(s, first + ("," + rest)) == Scan(s, rest)
  {
    hide Scan;
    ScanConcat(s, first, "," + rest);
    ScanConcat(Scan(s, first), ",", rest);
    ScanOne(Scan(s, first), ',');
  }

  lemma {:induction false} ScanItems(d: nat, items: seq<Json>)
    requires d > 0 && forall i :: 0 <= i < |items| ==> Decoded(items[i])
    ensures Scan(Out(d), WriteItems(items)) in {Out(d), After(d)}
    decreases items, 1
  {
    if |items| == 0 {
      assert Scan(Out(d), []) == Out(d);
    } else {
      ScanValue(d, items[0]);
      if |items| > 1 {
        ScanItems(d, items[1..]);
        ScanComma(Out(d), Write(items[0]), WriteItems(items[1..]));
      }
    }
  }

  lemma {:induction false} ScanObject(d: nat, v: Json)
    requires d > 0 && v.Obj? && Decoded(v)
    ensures Scan(Out(d), Write(v)) == Out(d)
    decreases v, 1
  {
    KeysOf(v.fields);
    var keys := SortedKeys(CharRank, v.fields.Keys);
    ScanFields(d + 1, keys, v);
    assert Write(v) == ['{'] + WriteFields(keys, v) + ['}'];
    ScanBrackets(d, '{', WriteFields(keys, v), '}');
  }

  lemma ScanField(d: nat, key: string, value: string)
    ensures Scan(Out(d), Quote(key) + (":" + value)) == Scan(Out(d), value)
  {
    hide Scan, Quote;
    ScanQuote(d, key);
    ScanConcat(Out(d), Quote(key), ":" + value);
    ScanConcat(After(d), ":", value);
    ScanOne(After(d), ':');
  }

  lemma {:induction false} ScanFields(d: nat, keys: seq<string>, v: Json)
    requires d > 0 && v.Obj? && Decoded(v) && forall k :: k in keys ==> k in v.fields
    ensures Scan(Out(d), WriteFields(keys, v)) in {Out(d), After(d)}
    decreases v, 0, |keys|
  {
    hide Quote;
    if |keys| == 0 {
      assert Scan(Out(d), []) == Out(d);
    } else {
      var value := Write(v.fields[keys[0]]);
      ScanValue(d, v.fields[keys[0]]);
      if |keys| == 1 {
        ScanField(d, keys[0], value);
      } else {
        var rest := WriteFields(keys[1..], v);
        ScanFields(d, keys[1..], v);
        ScanField(d, keys[0], value + ("," + rest));
        ScanComma(Out(d), value, rest);
      }
    }
  }

  /** A whole object is scanned to its end and no earlier. */
  lemma ScanWhole(v: Json)
    requires v.Obj? && Decoded(v)
    ensures Scan(Start, Write(v)) == Done
  {
    hide Scan, Decoded, WriteFields;
    KeysOf(v.fields);
    var keys := SortedKeys(CharRank, v.fields.Keys);
    ScanFields(1, keys, v);
    assert Write(v) == ['{'] + WriteFields(keys, v) + ['}'];
    ScanBrackets(0, '{', WriteFields(keys, v), '}');
  }

  /* Starting in the wrong place. */

  lemma {:induction false} ScanBad(s: State, t: string)
    requires s == Bad || (s == Done && t != [])
    ensures Scan(s, t) == Bad
    decreases t
  {
    if t != [] {
      ScanBad(Bad, t[1..]);
    }
  }

  /** The same state with k more brackets open. */
  function Deeper(s: State, k: nat): State {
    match s
    case Out(d) => Out(d + k)
    case After(d) => After(d + k)
    case In(d) => In(d + k)
    case Esc(d) => Esc(d + k)
    case _ => s
  }

  lemma {:induction false} ScanDeeper(s: State, k: nat, t: string)
    requires k > 0 && (s.Out? || s.After? || s.In? || s.Esc?) && s.d > 0
    requires Scan(s, t) == Done
    ensures Scan(Deeper(s, k), t) == Out(k)
    decreases t
  {
    var next := Step(s, t[0]);
    if next == Done {
      if t[1..] != [] {
        ScanBad(Done, t[1..]);
      }
    } else if next == Bad {
      ScanBad(Bad, t[1..]);
    } else {
      ScanDeeper(next, k, t[1..]);
    }
  }

  /** How every record's text opens. */
  predicate Opens(t: string) {
    |t| >= 3 && t[0] == '{' && t[1] == '"' && t[2] == 'a'
  }

  lemma ScanOpening(s: State, t: string)
    requires Opens(t)
    ensures Scan(s, t) == Scan(Step(Step(Step(s, '{'), '"'), 'a'), t[3..])
  {
    var one := Step(s, '{');
    assert t[1..][0] == '"' && t[1..][1..] == t[2..] && t[2..][1..] == t[3..];
    assert Scan(s, t) == Scan(one, t[1..]);
    assert Scan(one, t[1..]) == Scan(Step(one, '"'), t[2..]);
  }

  /** A record's text scanned from anywhere but the start does not end the scan. */
  lemma OnlyFromStart(s: State, t: string)
    requires Opens(t) && Scan(Start, t) == Done && s != Start
    requires (s.Out? || s.After? || s.In? || s.Esc?) ==> s.d > 0
    ensures Scan(s, t) != Done
  {
    hide Scan;
    ScanOpening(s, t);
    ScanOpening(Start, t);
    var third := Step(Step(Step(s, '{'), '"'), 'a');
    if s.Out? {
      ScanDeeper(In(1), s.d, t[3..]);
    } else {
      assert third == Bad;
      ScanBad(Bad, t[3..]);
    }
  }

  lemma {:induction false} DepthPositive(s: State, t: string)
    requires (s.Out? || s.After? || s.In? || s.Esc?) ==> s.d > 0
    ensures var r := Scan(s, t); (r.Out? || r.After? || r.In? || r.Esc?) ==> r.d > 0
    ensures s != Start ==> Scan(s, t) != Start
    decreases t
  {
    if t != [] {
      DepthPositive(Step(s, t[0]), t[1..]);
    }
  }

  /** No record's text ends with a shorter record's text. */
  lemma NoSuffix(long: string, short: string)
    requires Opens(short) && Scan(Start, short) == Done && Scan(Start, long) == Done
    requires |short| < |long|
    ensures long[|long| - |short|..] != short
  {
    hide Scan;
    var head := long[..|long| - |short|];
    ScanConcat(Start, head, short);
    DepthPositive(Step(Start, head[0]), head[1..]);
    assert Scan(Start, head) == Scan(Step(Start, head[0]), head[1..]) by {
      assert head == [head[0]] + head[1..];
      ScanConcat(Start, [head[0]], head[1..]);
      ScanOne(Start, head[0]);
    }
    OnlyFromStart(Scan(Start, head), short);
    assert long != head + short;
    assert long == head + long[|head|..];
  }

  /* Records. */

  lemma FirstKey(r: Record)
    ensures Injective(CharRank)
    ensures var keys := SortedKeys(CharRank, CanonicalFields(r).Keys);
            keys != [] && keys[0] != [] && keys[0][0] == 'a' && forall k :: k in keys ==> k in CanonicalFields(r)
  {
    var fields := CanonicalFields(r);
    KeysOf(fields);
    var keys := SortedKeys(CharRank, fields.Keys);
    assert "actor" in keys;
    assert keys[0] in fields;
    assert keys[0] == "actor" || Less(CharRank, keys[0], "actor");
    assert keys[0] != [] && keys[0][0] >= 'a';
  }

  lemma RecordOpens(r: Record)
    requires Sane(r)
    ensures Opens(Canonical(r)) && Scan(Start, Canonical(r)) == Done
  {
    FirstKey(r);
    FieldsDecoded(r);
    hide CanonicalFields, Scan, Decoded;
    var v := Obj(CanonicalFields(r));
    ScanWhole(v);
    var keys := SortedKeys(CharRank, v.fields.Keys);
    QuoteOpens(keys[0]);
    FieldsOpen(keys, v);
    hide WriteFields;
    assert Canonical(r) == "{" + WriteFields(keys, v) + "}";
  }

  lemma QuoteOpens(key: string)
    requires key != [] && key[0] == 'a'
    ensures |Quote(key)| >= 2 && Quote(key)[0] == '"' && Quote(key)[1] == 'a'
  {
    assert EscapeChar('a') == "a";
    assert Escape(key) == "a" + Escape(key[1..]);
  }

  lemma FieldsOpen(keys: seq<string>, v: Json)
    requires v.Obj? && keys != [] && forall k :: k in keys ==> k in v.fields
    ensures Quote(keys[0]) <= WriteFields(keys, v)
  {
    hide Quote, Write;
  }

  /** The previous hash and the canonical text can be told apart in the text that is hashed. */
  lemma HashedTextTells(p: string, r: Record, q: string, s: Record)
    requires Sane(r) && Sane(s) && p + Canonical(r) == q + Canonical(s)
    ensures p == q && Canonical(r) == Canonical(s)
  {
    RecordOpens(r);
    RecordOpens(s);
    hide Canonical, Scan, Opens;
    var c, d := Canonical(r), Canonical(s);
    var whole := p + c;
    assert whole[|whole| - |c|..] == c && whole[|whole| - |d|..] == d by {
      assert (q + d)[|q|..] == d;
    }
    assert |c| < |d| ==> d[|d| - |c|..] == c;
    assert |d| < |c| ==> c[|c| - |d|..] == d;
    if |c| < |d| {
      NoSuffix(d, c);
    } else if |d| < |c| {
      NoSuffix(c, d);
    }
    assert whole[..|whole| - |c|] == p && whole[..|whole| - |d|] == q;
  }
}
