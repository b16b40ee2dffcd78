/**
 The canonical form of an audit record: the text the hash chain is computed over, and a reader of
 RFC 8259 (sections 3 to 7, without the insignificant whitespace the canonical form never has) that gives
 the tree back.
 */
module AuditJson {
  import opened Wrappers
  import opened Ordering
  import opened JsonTree

  type Json = Tree<string>

  function CharRank(c: char): int { c as int }

  lemma RankInjective()
    ensures Injective(CharRank)
  {
  }

  /* Strings. */

  function HexChar(n: nat): char
    requires n < 16
  {
    if n < 10 then '0' + n as char else 'a' + (n - 10) as char
  }

  /** One code point: short escapes for the seven that have one and are used, \u00xx for other controls, itself otherwise. */
  function EscapeChar(c: char): string {
    if c == '"' then "\\\""
    else if c == '\\' then "\\\\"
    else if c == '\n' then "\\n"
    else if c == '\r' then "\\r"
    else if c == '\t' then "\\t"
    else if c == 8 as char then "\\b"
    else if c == 12 as char then "\\f"
    else if c < ' ' then "\\u00" + [HexChar(c as int / 16), HexChar(c as int % 16)]
    else [c]
  }

  function Escape(s: string): string {
    if s == [] then [] else EscapeChar(s[0]) + Escape(s[1..])
  }

  function Quote(s: string): string {
    "\"" + Escape(s) + "\""
  }

  /* Trees. */

  ghost function Write(v: Json): string
    decreases v, 2
  {
    match v
    case Null => "null"
    case Bool(b) => if b then "true" else "false"
    case Num(lit) => lit
    case Str(s) => Quote(s)
    case Arr(items) => "[" + WriteItems(items) + "]"
    case Obj(fields) =>
      RankInjective();
      KeysOf(fields);
      "{" + WriteFields(SortedKeys(CharRank, fields.Keys), v) + "}"
  }

  ghost function WriteItems(items: seq<Json>): string
    decreases items, 1
  {
    if items == [] then []
    else if |items| == 1 then Write(items[0])
    else Write(items[0]) + ("," + WriteItems(items[1..]))
  }

  /** Fields of an object, in the order of the keys. */
  ghost function WriteFields(keys: seq<string>, v: Json): string
    requires v.Obj? && forall k :: k in keys ==> k in v.fields
    decreases v, 1, |keys|
  {
    if keys == [] then []
    else if |keys| == 1 then Quote(keys[0]) + (":" + Write(v.fields[keys[0]]))
    else Quote(keys[0]) + (":" + (Write(v.fields[keys[0]]) + ("," + WriteFields(keys[1..], v))))
  }

  lemma KeysOf(fields: map<string, Json>)
    ensures Injective(CharRank)
    ensures forall k :: k in SortedKeys(CharRank, fields.Keys) <==> k in fields
  {
    assert forall k :: k in SortedKeys(CharRank, fields.Keys) <==> k in Elements(SortedKeys(CharRank, fields.Keys));
  }

  /* The reader. */

  datatype Got<+T> = Got(value: T, rest: string)

  function HexValue(c: char): (r: Option<nat>)
    ensures r.Some? ==> r.value < 16
  {
    if '0' <= c <= '9' then Some(c as int - '0' as int)
    else if 'a' <= c <= 'f' then Some(c as int - 'a' as int + 10)
    else if 'A' <= c <= 'F' then Some(c as int - 'A' as int + 10)
    else None
  }

  /** Four hexadecimal digits. */
  function ReadHex(s: string): (r: Option<nat>)
    ensures r.Some? ==> |s| >= 4 && r.value < 0x1_0000
  {
    if |s| < 4 then None
    else
      match (HexValue(s[0]), HexValue(s[1]), HexValue(s[2]), HexValue(s[3]))
      case (Some(a), Some(b), Some(c), Some(d)) => Some(0x1000 * a + 0x100 * b + 0x10 * c + d)
      case _ => None
  }

  /** What follows a backslash and u: one character, or a second escape with the other half of its surrogate pair. */
  function ReadUnicode(s: string): (r: Option<Got<char>>)
    ensures r.Some? ==> |r.value.rest| < |s|
  {
    var high := ReadHex(s);
    if high.None? then None
    else if !(0xD800 <= high.value < 0xE000) then Some(Got(high.value as char, s[4..]))
    else if high.value >= 0xDC00 || |s| < 6 || s[4] != '\\' || s[5] != 'u' then None
    else
      var low := ReadHex(s[6..]);
      if low.None? || !(0xDC00 <= low.value < 0xE000) then None
      else Some(Got((0x1_0000 + 0x400 * (high.value - 0xD800) + (low.value - 0xDC00)) as char, s[10..]))
  }

  function ShortEscape(c: char): Option<char> {
    match c
    case '"' => Some('"')
    case '\\' => Some('\\')
    case '/' => Some('/')
    case 'b' => Some(8 as char)
    case 'f' => Some(12 as char)
    case 'n' => Some('\n')
    case 'r' => Some('\r')
    case 't' => Some('\t')
    case _ => None
  }

  /** The characters of a string up to and with its closing quotation mark. */
  function ReadChars(s: string): (r: Option<Got<string>>)
    ensures r.Some? ==> |r.value.rest| < |s|
    decreases |s|
  {
    if s == [] then None
    else if s[0] == '"' then Some(Got([], s[1..]))
    else if s[0] < ' ' then None
    else
      var first := ReadChar(s);
      if first.None? then None
      else
        var more := ReadChars(first.value.rest);
        if more.None? then None else Some(Got([first.value.value] + more.value.value, more.value.rest))
  }

  /** One character of a string, escaped or not. */
  function ReadChar(s: string): (r: Option<Got<char>>)
    requires s != []
    ensures r.Some? ==> |r.value.rest| < |s|
  {
    if s[0] != '\\' then Some(Got(s[0], s[1..]))
    else if |s| < 2 then None
    else if s[1] == 'u' then ReadUnicode(s[2..])
    else if ShortEscape(s[1]).None? then None
    else Some(Got(ShortEscape(s[1]).value, s[2..]))
  }

  /* Numbers: section 6 of RFC 8259. */

  predicate Digit(c: char) { '0' <= c <= '9' }

  predicate NumberChar(c: char) {
    Digit(c) || c == '-' || c == '+' || c == '.' || c == 'e' || c == 'E'
  }

  /** How many digits a text starts with. */
  function Digits(s: string): (n: nat)
    ensures n <= |s|
  {
    if s != [] && Digit(s[0]) then 1 + Digits(s[1..]) else 0
  }

  predicate ValidExponent(s: string) {
    s == [] ||
    ((s[0] == 'e' || s[0] == 'E') &&
     var t := if |s| > 1 && (s[1] == '+' || s[1] == '-') then s[2..] else s[1..];
     t != [] && Digits(t) == |t|)
  }

  predicate ValidFraction(s: string) {
    if s != [] && s[0] == '.' then
      var n := Digits(s[1..]);
      n > 0 && ValidExponent(s[1 + n..])
    else ValidExponent(s)
  }

  predicate ValidNumber(lit: string) {
    var s := if lit != [] && lit[0] == '-' then lit[1..] else lit;
    s != [] && Digit(s[0]) && (if s[0] == '0' then ValidFraction(s[1..]) else ValidFraction(s[Digits(s)..]))
  }

  /** How many letters of a number a text starts with. */
  function NumberSpan(s: string): (n: nat)
    ensures n <= |s|
  {
    if s != [] && NumberChar(s[0]) then 1 + NumberSpan(s[1..]) else 0
  }

  /* Values. */

  function Read(s: string): (r: Option<Got<Json>>)
    ensures r.Some? ==> |r.value.rest| < |s|
    decreases |s|, 1
  {
    if s == [] then None
    else if s[0] == '"' then
      var chars := ReadChars(s[1..]);
      if chars.None? then None else Some(Got(Str(chars.value.value), chars.value.rest))
    else if s[0] == '[' then
      if |s| > 1 && s[1] == ']' then Some(Got(Arr([]), s[2..]))
      else
        var items := ReadItems(s[1..]);
        if items.None? then None else Some(Got(Arr(items.value.value), items.value.rest))
    else if s[0] == '{' then
      if |s| > 1 && s[1] == '}' then Some(Got(Obj(map[]), s[2..]))
      else
        var fields := ReadFields(s[1..]);
        if fields.None? then None else Some(Got(Obj(fields.value.value), fields.value.rest))
    else if "null" <= s then Some(Got(Null, s[4..]))
    else if "true" <= s then Some(Got(Bool(true), s[4..]))
    else if "false" <= s then Some(Got(Bool(false), s[5..]))
    else
      var n := NumberSpan(s);
      if ValidNumber(s[..n]) then Some(Got(Num(s[..n]), s[n..])) else None
  }

  function ReadItems(s: string): (r: Option<Got<seq<Json>>>)
    ensures r.Some? ==> |r.value.rest| < |s|
    decreases |s|, 2
  {
    var first := Read(s);
    if first.None? || first.value.rest == [] then None
    else if first.value.rest[0] == ']' then Some(Got([first.value.value], first.value.rest[1..]))
    else if first.value.rest[0] == ',' then
      var more := ReadItems(first.value.rest[1..]);
      if more.None? then None else Some(Got([first.value.value] + more.value.value, more.value.rest))
    else None
  }

  function ReadFields(s: string): (r: Option<Got<map<string, Json>>>)
    ensures r.Some? ==> |r.value.rest| < |s|
    decreases |s|, 2
  {
    if s == [] || s[0] != '"' then None
    else
      var key := ReadChars(s[1..]);
      if key.None? || key.value.rest == [] || key.value.rest[0] != ':' then None
      else
        var first := Read(key.value.rest[1..]);
        if first.None? || first.value.rest == [] then None
        else if first.value.rest[0] == '}' then Some(Got(map[key.value.value := first.value.value], first.value.rest[1..]))
        else if first.value.rest[0] == ',' then
          var more := ReadFields(first.value.rest[1..]);
          if more.None? then None
          else Some(Got(map[key.value.value := first.value.value] + more.value.value, more.value.rest))
        else None
  }

  /* Reading what was written. */

  /** Every number is one a decoder of RFC 8259 can have kept. */
  ghost predicate Decoded(v: Json)
    decreases v
  {
    match v
    case Num(lit) => ValidNumber(lit)
    case Arr(items) => forall i :: 0 <= i < |items| ==> Decoded(items[i])
    case Obj(fields) => forall k :: k in fields ==> Decoded(fields[k])
    case _ => true
  }

  lemma EscapeReads(c: char, rest: string)
    ensures var e := EscapeChar(c);
            e != [] && e[0] >= ' ' && e[0] != '"' && ReadChar(e + rest) == Some(Got(c, rest))
  {
    var e := EscapeChar(c);
    if c < ' ' && |e| == 6 {
      assert (e + rest)[2..][..4] == e[2..];
      assert (e + rest)[6..] == rest;
      assert (c as int / 16) * 16 + c as int % 16 == c as int;
    } else {
      assert (e + rest)[|e|..] == rest;
    }
  }

  lemma {:induction false} CharsRoundTrip(s: string, rest: string)
    ensures ReadChars(Escape(s) + ("\"" + rest)) == Some(Got(s, rest))
  {
    hide ReadChar, EscapeChar;
    var tail := "\"" + rest;
    if s == [] {
      assert [] + tail == tail;
      assert tail[1..] == rest;
    } else {
      EscapeReads(s[0], Escape(s[1..]) + tail);
      CharsRoundTrip(s[1..], rest);
      assert Escape(s) + tail == EscapeChar(s[0]) + (Escape(s[1..]) + tail);
      assert [s[0]] + s[1..] == s;
    }
  }

  /* Numbers. */

  lemma {:induction false} NumberSpanOf(lit: string, rest: string)
    requires forall i :: 0 <= i < |lit| ==> NumberChar(lit[i])
    requires rest == [] || !NumberChar(rest[0])
    ensures NumberSpan(lit + rest) == |lit|
  {
    if lit == [] {
      assert lit + rest == rest;
    } else {
      assert (lit + rest)[1..] == lit[1..] + rest;
      NumberSpanOf(lit[1..], rest);
    }
  }

  lemma {:induction false} DigitsAre(s: string)
    ensures forall i :: 0 <= i < Digits(s) ==> Digit(s[i])
  {
    if s != [] && Digit(s[0]) {
      DigitsAre(s[1..]);
    }
  }

  lemma ExponentChars(s: string)
    requires ValidExponent(s)
    ensures forall i :: 0 <= i < |s| ==> NumberChar(s[i])
  {
    if s != [] {
      var k := if |s| > 1 && (s[1] == '+' || s[1] == '-') then 2 else 1;
      DigitsAre(s[k..]);
      forall i | k <= i < |s|
        ensures NumberChar(s[i])
      {
        assert s[i] == s[k..][i - k];
      }
    }
  }

  lemma FractionChars(s: string)
    requires ValidFraction(s)
    ensures forall i :: 0 <= i < |s| ==> NumberChar(s[i])
  {
    if s != [] && s[0] == '.' {
      var n := Digits(s[1..]);
      DigitsAre(s[1..]);
      ExponentChars(s[1 + n..]);
      forall i | 0 < i < |s|
        ensures NumberChar(s[i])
      {
        if i <= n {
          assert s[i] == s[1..][i - 1];
        } else {
          assert s[i] == s[1 + n..][i - 1 - n];
        }
      }
    } else {
      ExponentChars(s);
    }
  }

  /** A valid number is made of the letters of numbers, starting with a digit or a minus sign. */
  lemma NumberChars(lit: string)
    requires ValidNumber(lit)
    ensures lit != [] && (Digit(lit[0]) || lit[0] == '-') && forall i :: 0 <= i < |lit| ==> NumberChar(lit[i])
  {
    var off := if lit[0] == '-' then 1 else 0;
    var s := lit[off..];
    assert s == if lit[0] == '-' then lit[1..] else lit;
    var n := if s[0] == '0' then 1 else Digits(s);
    DigitsAre(s);
    FractionChars(s[n..]);
    forall i | off <= i < |lit|
      ensures NumberChar(lit[i])
    {
      assert lit[i] == s[i - off];
      if i - off >= n {
        assert lit[i] == s[n..][i - off - n];
      }
    }
  }

  /** What may follow a value in a document. */
  predicate Ends(rest: string) {
    rest == [] || rest[0] == ',' || rest[0] == ']' || rest[0] == '}'
  }

  /* What the reader does with each kind of value, over any text. */

  lemma ReadString(inner: string)
    ensures Read("\"" + inner) == match ReadChars(inner) {
      case None => None
      case Some(g) => Some(Got(Str(g.value), g.rest))
    }
  {
    hide ReadChars, ReadItems, ReadFields, ValidNumber;
    assert ("\"" + inner)[1..] == inner;
  }

  lemma ReadArray(inner: string)
    requires inner != [] && inner[0] != ']'
    ensures Read("[" + inner) == match ReadItems(inner) {
      case None => None
      case Some(g) => Some(Got(Arr(g.value), g.rest))
    }
  {
    hide ReadChars, ReadItems, ReadFields, ValidNumber;
    assert ("[" + inner)[1..] == inner;
  }

  lemma ReadObject(inner: string)
    requires inner != [] && inner[0] != '}'
    ensures Read("{" + inner) == match ReadFields(inner) {
      case None => None
      case Some(g) => Some(Got(Obj(g.value), g.rest))
    }
  {
    hide ReadChars, ReadItems, ReadFields, ValidNumber;
    assert ("{" + inner)[1..] == inner;
  }

  lemma ReadEmpty(rest: string)
    ensures Read("[]" + rest) == Some(Got(Arr([]), rest))
    ensures Read("{}" + rest) == Some(Got(Obj(map[]), rest))
  {
    hide ReadChars, ReadItems, ReadFields, ValidNumber;
    assert ("[]" + rest)[2..] == rest;
    assert ("{}" + rest)[2..] == rest;
  }

  lemma ReadNumber(s: string)
    requires s != [] && (Digit(s[0]) || s[0] == '-') && ValidNumber(s[..NumberSpan(s)])
    ensures Read(s) == Some(Got(Num(s[..NumberSpan(s)]), s[NumberSpan(s)..]))
  {
    hide ReadChars, ReadItems, ReadFields, ValidNumber, NumberSpan;
  }

  lemma NumberRoundTrip(lit: string, rest: string)
    requires ValidNumber(lit) && Ends(rest)
    ensures Read(lit + rest) == Some(Got(Num(lit), rest))
  {
    NumberChars(lit);
    NumberSpanOf(lit, rest);
    hide Read, ValidNumber, NumberSpan;
    var s := lit + rest;
    assert s[0] == lit[0];
    assert s[..|lit|] == lit && s[|lit|..] == rest;
    ReadNumber(s);
  }

  lemma StrRoundTrip(s: string, rest: string)
    ensures Read(Quote(s) + rest) == Some(Got(Str(s), rest))
  {
    hide Read, ReadChars, Escape;
    CharsRoundTrip(s, rest);
    var inner := Escape(s) + ("\"" + rest);
    assert Quote(s) + rest == "\"" + inner;
    ReadString(inner);
  }

  lemma WordRoundTrip(v: Json, rest: string)
    requires v.Null? || v.Bool?
    ensures Read(Write(v) + rest) == Some(Got(v, rest))
  {
    hide ReadChars, ReadItems, ReadFields, ValidNumber, WriteItems, WriteFields;
    var w := Write(v);
    assert (w + rest)[|w|..] == rest;
    if v.Null? {
      assert "null" <= w + rest;
    } else if v.b {
      assert "true" <= w + rest;
      assert !("null" <= w + rest) by { assert (w + rest)[0] == 't'; }
    } else {
      assert "false" <= w + rest;
      assert !("null" <= w + rest) && !("true" <= w + rest) by { assert (w + rest)[0] == 'f'; }
    }
  }

  /** A written value is not empty, and starts with no letter that could end a list. */
  lemma WriteStarts(v: Json)
    requires Decoded(v)
    ensures Write(v) != []
    ensures Write(v)[0] != ']' && Write(v)[0] != '}' && Write(v)[0] != ','
  {
    hide WriteItems, WriteFields, Escape, ValidNumber;
    if v.Num? {
      NumberChars(v.lit);
    }
  }

  /** Reading the first item of a list. */
  lemma ReadItemsAt(s: string, first: Got<Json>)
    requires Read(s) == Some(first) && first.rest != []
    ensures first.rest[0] == ']' ==> ReadItems(s) == Some(Got([first.value], first.rest[1..]))
    ensures first.rest[0] == ',' ==> ReadItems(s) == match ReadItems(first.rest[1..]) {
        case None => None
        case Some(more) => Some(Got([first.value] + more.value, more.rest))
      }
  {
    hide Read;
  }

  /** Reading the first field of an object. */
  lemma ReadFieldsAt(s: string, key: Got<string>, first: Got<Json>)
    requires s != [] && s[0] == '"' && ReadChars(s[1..]) == Some(key)
    requires key.rest != [] && key.rest[0] == ':' && Read(key.rest[1..]) == Some(first) && first.rest != []
    ensures first.rest[0] == '}' ==> ReadFields(s) == Some(Got(map[key.value := first.value], first.rest[1..]))
    ensures first.rest[0] == ',' ==> ReadFields(s) == match ReadFields(first.rest[1..]) {
        case None => None
        case Some(more) => Some(Got(map[key.value := first.value] + more.value, more.rest))
      }
  {
    hide Read, ReadChars;
  }

  lemma WriteArray(items: seq<Json>, rest: string)
    ensures Write(Arr(items)) + rest == "[" + (WriteItems(items) + ("]" + rest))
  {
    hide WriteItems;
  }

  lemma WriteObject(fields: map<string, Json>, rest: string)
    ensures forall k :: k in SortedKeys(CharRank, fields.Keys) <==> k in fields
    ensures Write(Obj(fields)) + rest ==
            "{" + (WriteFields(SortedKeys(CharRank, fields.Keys), Obj(fields)) + ("}" + rest))
  {
    KeysOf(fields);
    hide WriteFields;
  }

  lemma {:induction false} RoundTrip(v: Json, rest: string)
    requires Decoded(v) && Ends(rest)
    ensures Read(Write(v) + rest) == Some(Got(v, rest))
    decreases v, 2
  {
    hide Read, ReadItems, ReadFields, Write, WriteItems, WriteFields, ValidNumber, Quote;
    match v
    case Num(lit) => NumberRoundTrip(lit, rest); assert Write(v) == lit by { NumberWrites(lit); }
    case Str(s) => StrRoundTrip(s, rest); assert Write(v) == Quote(s) by { StrWrites(s); }
    case Arr(items) => ArrayRoundTrip(items, rest);
    case Obj(fields) => ObjectRoundTrip(v, rest);
    case _ => WordRoundTrip(v, rest);
  }

  lemma NumberWrites(lit: string)
    ensures Write(Num(lit)) == lit
  {
  }

  lemma StrWrites(s: string)
    ensures Write(Str(s)) == Quote(s)
  {
  }

  lemma {:induction false} ArrayRoundTrip(items: seq<Json>, rest: string)
    requires Ends(rest) && forall i :: 0 <= i < |items| ==> Decoded(items[i])
    ensures Read(Write(Arr(items)) + rest) == Some(Got(Arr(items), rest))
    decreases items, 2
  {
    WriteArray(items, rest);
    if items == [] {
      assert WriteItems(items) == [];
      assert "[" + ([] + ("]" + rest)) == "[]" + rest;
      ReadEmpty(rest);
    } else {
      ItemsRoundTrip(items, rest);
      WriteStarts(items[0]);
      assert WriteItems(items) != [] && WriteItems(items)[0] == Write(items[0])[0];
      hide Read, ReadItems, Write, WriteItems;
      var inner := WriteItems(items) + ("]" + rest);
      assert inner[0] == WriteItems(items)[0];
      ReadArray(inner);
    }
  }

  lemma {:induction false} ItemsRoundTrip(items: seq<Json>, rest: string)
    requires items != [] && forall i :: 0 <= i < |items| ==> Decoded(items[i])
    ensures ReadItems(WriteItems(items) + ("]" + rest)) == Some(Got(items, rest))
    decreases items, 1
  {
    hide Read, ReadItems, Write, Decoded;
    var tail := "]" + rest;
    if |items| == 1 {
      RoundTrip(items[0], tail);
      assert items == [items[0]];
      assert tail[1..] == rest;
      ReadItemsAt(Write(items[0]) + tail, Got(items[0], tail));
    } else {
      var more := "," + (WriteItems(items[1..]) + tail);
      assert WriteItems(items) + tail == Write(items[0]) + more;
      RoundTrip(items[0], more);
      assert more[1..] == WriteItems(items[1..]) + tail;
      ItemsRoundTrip(items[1..], rest);
      assert [items[0]] + items[1..] == items;
      ReadItemsAt(Write(items[0]) + more, Got(items[0], more));
    }
  }

  lemma {:induction false} ObjectRoundTrip(v: Json, rest: string)
    requires v.Obj? && Decoded(v) && Ends(rest)
    ensures Read(Write(v) + rest) == Some(Got(v, rest))
    decreases v, 1
  {
    WriteObject(v.fields, rest);
    var keys := SortedKeys(CharRank, v.fields.Keys);
    if keys == [] {
      assert v.fields == map[] by { assert forall k :: k in v.fields ==> k in keys; }
      assert WriteFields(keys, v) == [];
      assert "{" + ([] + ("}" + rest)) == "{}" + rest;
      ReadEmpty(rest);
    } else {
      FieldsRoundTrip(keys, v, rest);
      var inner := WriteFields(keys, v) + ("}" + rest);
      FieldsStart(keys, v);
      hide Read, ReadFields, Write, WriteFields;
      ReadObject(inner);
      assert Restrict(v.fields, keys) == v.fields;
    }
  }

  lemma FieldsStart(keys: seq<string>, v: Json)
    requires v.Obj? && keys != [] && (forall k :: k in keys ==> k in v.fields)
    ensures WriteFields(keys, v) != [] && WriteFields(keys, v)[0] == '"'
  {
    hide Write, Escape;
  }

  function Restrict(fields: map<string, Json>, keys: seq<string>): map<string, Json> {
    map k | k in keys && k in fields :: fields[k]
  }

  lemma {:induction false} FieldsRoundTrip(keys: seq<string>, v: Json, rest: string)
    requires v.Obj? && keys != [] && (forall k :: k in keys ==> k in v.fields) && Decoded(v)
    ensures ReadFields(WriteFields(keys, v) + ("}" + rest)) == Some(Got(Restrict(v.fields, keys), rest))
    decreases v, 0, |keys|
  {
    hide Read, ReadFields, ReadChars, Write, Quote;
    var key, value := keys[0], v.fields[keys[0]];
    if |keys| == 1 {
      var tail := "}" + rest;
      FieldText(keys, v, tail);
      RoundTrip(value, tail);
      assert tail[1..] == rest;
      FieldRead(key, value, tail);
      assert Restrict(v.fields, keys) == map[key := value];
    } else {
      var inner := WriteFields(keys[1..], v) + ("}" + rest);
      var more := "," + inner;
      FieldText(keys, v, "}" + rest);
      RoundTrip(value, more);
      assert more[1..] == inner;
      FieldsRoundTrip(keys[1..], v, rest);
      FieldRead(key, value, more);
      RestrictMore(v.fields, keys);
    }
  }

  lemma RestrictMore(fields: map<string, Json>, keys: seq<string>)
    requires keys != [] && keys[0] in fields
    ensures Restrict(fields, keys) == map[keys[0] := fields[keys[0]]] + Restrict(fields, keys[1..])
  {
    assert forall k :: k in keys <==> k == keys[0] || k in keys[1..];
  }

  /** The text of an object's fields and of what follows them, taken apart after the first value. */
  lemma FieldText(keys: seq<string>, v: Json, tail: string)
    requires v.Obj? && keys != [] && (forall k :: k in keys ==> k in v.fields)
    ensures WriteFields(keys, v) + tail ==
            Quote(keys[0]) + (":" + (Write(v.fields[keys[0]]) +
            (if |keys| == 1 then tail else "," + (WriteFields(keys[1..], v) + tail))))
  {
    hide Quote, Write;
    var key, value := Quote(keys[0]), Write(v.fields[keys[0]]);
    if |keys| == 1 {
      assert WriteFields(keys, v) == key + (":" + value);
      Joined(key, ":", value, tail);
    } else {
      var more := WriteFields(keys[1..], v);
      assert WriteFields(keys, v) == key + (":" + (value + ("," + more)));
      Joined(key, ":", value + ("," + more), tail);
      Joined(value, ",", more, tail);
    }
  }

  lemma Joined(a: string, b: string, c: string, d: string)
    ensures a + (b + c) + d == a + (b + (c + d))
  {
  }

  lemma FieldRead(key: string, value: Json, after: string)
    requires after != [] && Read(Write(value) + after) == Some(Got(value, after))
    ensures after[0] == '}' ==>
      ReadFields(Quote(key) + (":" + (Write(value) + after))) == Some(Got(map[key := value], after[1..]))
    ensures after[0] == ',' ==>
      ReadFields(Quote(key) + (":" + (Write(value) + after))) == match ReadFields(after[1..]) {
        case None => None
        case Some(more) => Some(Got(map[key := value] + more.value, more.rest))
      }
  {
    hide Read, ReadFields, ReadChars, Write, Escape;
    var text := ":" + (Write(value) + after);
    CharsRoundTrip(key, text);
    assert (Quote(key) + text)[1..] == Escape(key) + ("\"" + text);
    assert text[1..] == Write(value) + after;
    ReadFieldsAt(Quote(key) + text, Got(key, text), Got(value, after));
  }

  /** Distinct trees have distinct texts. */
  lemma WriteInjective(v: Json, w: Json)
    requires Decoded(v) && Decoded(w) && Write(v) == Write(w)
    ensures v == w
  {
    hide Write, Decoded, Read;
    RoundTrip(v, []);
    RoundTrip(w, []);
    assert Write(v) + [] == Write(w) + [];
  }

  /* The printer. */

  method WriteCanonicalString(buf: string, s: string) returns (out: string)
    ensures out == buf + Quote(s)
  {
    hide EscapeChar;
    out := buf + "\"";
    for i := 0 to |s|
      invariant out + Escape(s[i..]) == buf + "\"" + Escape(s)
    {
      assert out + EscapeChar(s[i]) + Escape(s[i..][1..]) == out + Escape(s[i..]);
      assert s[i..][1..] == s[i + 1..];
      out := out + EscapeChar(s[i]);
    }
    assert out == buf + "\"" + Escape(s);
    out := out + "\"";
  }

  /** What is still to be printed of a list when i of its items have been. */
  ghost function ItemsLeft(items: seq<Json>, i: nat): string
    requires i <= |items|
  {
    (if 0 < i < |items| then "," else "") + WriteItems(items[i..])
  }

  lemma ItemsLeftStep(out: string, items: seq<Json>, i: nat)
    requires i < |items|
    ensures (if i > 0 then out + "," else out) + Write(items[i]) + ItemsLeft(items, i + 1) == out + ItemsLeft(items, i)
  {
    hide Write;
    var rest := items[i..];
    assert rest[0] == items[i] && rest[1..] == items[i + 1..];
    assert WriteItems(rest) == Write(items[i]) + ItemsLeft(items, i + 1);
  }

  /** The same for the fields of an object. */
  ghost function FieldsLeft(keys: seq<string>, v: Json, i: nat): string
    requires v.Obj? && (forall k :: k in keys ==> k in v.fields) && i <= |keys|
  {
    (if 0 < i < |keys| then "," else "") + WriteFields(keys[i..], v)
  }

  lemma FieldsLeftStep(out: string, keys: seq<string>, v: Json, i: nat)
    requires v.Obj? && (forall k :: k in keys ==> k in v.fields) && i < |keys|
    ensures (if i > 0 then out + "," else out) + Quote(keys[i]) + ":" + Write(v.fields[keys[i]]) +
              FieldsLeft(keys, v, i + 1) == out + FieldsLeft(keys, v, i)
  {
    hide Write, Quote;
    var rest := keys[i..];
    var after := FieldsLeft(keys, v, i + 1);
    assert rest[0] == keys[i] && rest[1..] == keys[i + 1..];
    assert WriteFields(rest, v) == Quote(keys[i]) + (":" + (Write(v.fields[keys[i]]) + after));
    FieldAppend(out, Quote(keys[i]), Write(v.fields[keys[i]]), after);
    FieldAppend(out + ",", Quote(keys[i]), Write(v.fields[keys[i]]), after);
    assert out + ("," + WriteFields(rest, v)) == out + "," + WriteFields(rest, v);
  }

  lemma FieldAppend(out: string, key: string, value: string, after: string)
    ensures out + key + ":" + value + after == out + (key + (":" + (value + after)))
  {
  }

  lemma Enclose(buf: string, open: string, inner: string, close: string)
    ensures buf + open + inner + close == buf + (open + inner + close)
  {
  }

  /** Keys gathered in whatever order the map hands them out, and sorted, are the sorted keys. */
  method KeysInOrder(fields: map<string, Json>) returns (keys: seq<string>)
    ensures Injective(CharRank) && keys == SortedKeys(CharRank, fields.Keys)
  {
    RankInjective();
    keys := Sort(CharRank, fields.Keys);
    SortedUnique(CharRank, keys, SortedKeys(CharRank, fields.Keys));
  }

  /** Appends the canonical text of a tree to a buffer. */
  method WriteCanonical(buf: string, v: Json) returns (out: string)
    ensures out == buf + Write(v)
    decreases v, 2
  {
    match v
    case Null => out := buf + "null";
    case Bool(b) => out := buf + if b then "true" else "false";
    case Num(lit) => out := buf + lit;
    case Str(s) => out := WriteCanonicalString(buf, s);
    case Arr(items) => out := WriteCanonicalArray(buf, v);
    case Obj(fields) => out := WriteCanonicalObject(buf, v);
  }

  method WriteCanonicalArray(buf: string, v: Json) returns (out: string)
    requires v.Arr?
    ensures out == buf + Write(v)
    decreases v, 1
  {
    hide Write, WriteItems, ItemsLeft;
    var items := v.items;
    out := buf + "[";
    for i := 0 to |items|
      invariant out + ItemsLeft(items, i) == buf + "[" + ItemsLeft(items, 0)
    {
      ItemsLeftStep(out, items, i);
      if i > 0 {
        out := out + ",";
      }
      out := WriteCanonical(out, items[i]);
    }
    ArrayText(v);
    assert out + [] == out;
    Enclose(buf, "[", ItemsLeft(items, 0), "]");
    out := out + "]";
  }

  lemma ArrayText(v: Json)
    requires v.Arr?
    ensures ItemsLeft(v.items, |v.items|) == []
    ensures Write(v) == "[" + ItemsLeft(v.items, 0) + "]"
  {
    assert v.items[0..] == v.items;
  }

  method WriteCanonicalObject(buf: string, v: Json) returns (out: string)
    requires v.Obj?
    ensures out == buf + Write(v)
    decreases v, 1
  {
    hide Write, WriteFields, FieldsLeft, Quote;
    KeysOf(v.fields);
    var keys := KeysInOrder(v.fields);
    out := buf + "{";
    for i := 0 to |keys|
      invariant out + FieldsLeft(keys, v, i) == buf + "{" + FieldsLeft(keys, v, 0)
    {
      FieldsLeftStep(out, keys, v, i);
      if i > 0 {
        out := out + ",";
      }
      out := WriteCanonicalString(out, keys[i]);
      out := out + ":";
      out := WriteCanonical(out, v.fields[keys[i]]);
    }
    ObjectText(v, keys);
    assert out + [] == out;
    Enclose(buf, "{", FieldsLeft(keys, v, 0), "}");
    out := out + "}";
  }

  lemma ObjectText(v: Json, keys: seq<string>)
    requires v.Obj? && Injective(CharRank) && keys == SortedKeys(CharRank, v.fields.Keys)
    requires forall k :: k in keys ==> k in v.fields
    ensures FieldsLeft(keys, v, |keys|) == []
    ensures Write(v) == "{" + FieldsLeft(keys, v, 0) + "}"
  {
    assert keys[0..] == keys;
  }
}
