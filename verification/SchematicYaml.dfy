/**
 The subset of YAML a canonical schematic is written in, and a reader of it: block mappings and sequences
 (sections 8.2.1 and 8.2.2 of YAML 1.2.2) of single-line scalars in the double-quoted, single-quoted and
 plain styles (sections 7.3.1 to 7.3.3).  A string stands for its bytes, one character a byte.
 */
module SchematicYaml {
  import opened Wrappers

  datatype Style = Plain | Single | Double

  /** A list holds scalars and mappings of scalars; `{}` is the empty mapping. */
  datatype Node =
    | Leaf(style: Style, text: string)
    | EmptyMap
    | Map(fields: seq<Field>)
    | List(items: seq<Node>)

  datatype Field = Field(key: string, value: Node)

  /** Spaces a nesting level is indented by. */
  const CANONICAL_INDENT := 4

  /* Scalars. */

  function EscapeDouble(s: string): string {
    if s == [] then []
    else (if s[0] == '\\' || s[0] == '"' then ['\\', s[0]] else [s[0]]) + EscapeDouble(s[1..])
  }

  function EscapeSingle(s: string): string {
    if s == [] then [] else (if s[0] == '\'' then "''" else [s[0]]) + EscapeSingle(s[1..])
  }

  function Show(style: Style, text: string): string {
    match style
    case Plain => text
    case Single => "'" + EscapeSingle(text) + "'"
    case Double => "\"" + EscapeDouble(text) + "\""
  }

  /** What follows an opening double quote, up to the closing one, which must be the last letter. */
  function ReadDouble(t: string): Option<string>
    decreases |t|
  {
    if t == [] then None
    else if t[0] == '"' then (if |t| == 1 then Some([]) else None)
    else
      var n := if t[0] == '\\' then 2 else 1;
      if |t| < n || (n == 2 && t[1] != '\\' && t[1] != '"') then None
      else
        match ReadDouble(t[n..])
        case None => None
        case Some(more) => Some([t[n - 1]] + more)
  }

  function ReadSingle(t: string): Option<string>
    decreases |t|
  {
    if t == [] then None
    else if t[0] == '\'' && |t| == 1 then Some([])
    else
      var n := if t[0] == '\'' then 2 else 1;
      if n == 2 && t[1] != '\'' then None
      else
        match ReadSingle(t[n..])
        case None => None
        case Some(more) => Some([t[0]] + more)
  }

  lemma {:induction false} DoubleRoundTrip(s: string)
    ensures ReadDouble(EscapeDouble(s) + "\"") == Some(s)
  {
    if s != [] {
      DoubleRoundTrip(s[1..]);
      var rest := EscapeDouble(s[1..]) + "\"";
      var t := EscapeDouble(s) + "\"";
      if s[0] == '\\' || s[0] == '"' {
        assert t == ['\\', s[0]] + rest;
        assert t[2..] == rest;
      } else {
        assert t == [s[0]] + rest;
        assert t[1..] == rest;
      }
      assert [s[0]] + s[1..] == s;
    }
  }

  lemma {:induction false} SingleRoundTrip(s: string)
    ensures EscapeSingle(s) + "'" != [] && ReadSingle(EscapeSingle(s) + "'") == Some(s)
  {
    if s != [] {
      SingleRoundTrip(s[1..]);
      var rest := EscapeSingle(s[1..]) + "'";
      var t := EscapeSingle(s) + "'";
      if s[0] == '\'' {
        assert t == "''" + rest;
        assert t[2..] == rest;
      } else {
        assert t == [s[0]] + rest;
        assert t[1..] == rest;
      }
      assert [s[0]] + s[1..] == s;
    }
  }

  /* Plain scalars. */

  const INDICATORS := "#,[]{}&*!|>'\"%@`"

  /** A colon ends a plain scalar when a blank or the end follows it. */
  predicate EndsAt(t: string, i: nat)
    requires i < |t|
  {
    t[i] == ':' && (i + 1 == |t| || t[i + 1] == ' ')
  }

  /** Where the first such colon stands; the length if there is none. */
  function FindColon(t: string): (i: nat)
    ensures i <= |t|
  {
    if t == [] || EndsAt(t, 0) then 0 else 1 + FindColon(t[1..])
  }

  lemma {:induction false} FindColonIs(t: string, i: nat)
    requires i <= |t| && (i < |t| ==> EndsAt(t, i)) && forall j :: 0 <= j < i ==> !EndsAt(t, j)
    ensures FindColon(t) == i
  {
    if i > 0 {
      assert !EndsAt(t, 0);
      forall j | 0 <= j < i - 1
        ensures !EndsAt(t[1..], j)
      {
        assert !EndsAt(t, j + 1);
      }
      FindColonIs(t[1..], i - 1);
    }
  }

  lemma {:induction false} FindColonFinds(t: string)
    ensures FindColon(t) < |t| ==> EndsAt(t, FindColon(t))
    ensures forall j :: 0 <= j < FindColon(t) ==> !EndsAt(t, j)
  {
    if t != [] && !EndsAt(t, 0) {
      FindColonFinds(t[1..]);
      forall j | 0 < j < FindColon(t)
        ensures !EndsAt(t, j)
      {
        assert !EndsAt(t[1..], j - 1);
      }
    }
  }

  predicate NoComment(t: string) {
    forall i :: 0 < i < |t| && t[i] == '#' ==> t[i - 1] != ' '
  }

  /** Whether a scalar may be written unquoted in block context. */
  predicate PlainAllowed(s: string) {
    s != [] && s[0] != ' ' && s[|s| - 1] != ' ' && s[0] !in INDICATORS &&
    ((s[0] == '?' || s[0] == ':' || s[0] == '-') ==> |s| > 1 && s[1] != ' ') &&
    FindColon(s) == |s| && NoComment(s)
  }

  method IsPlainAllowed(s: string) returns (ok: bool)
    ensures ok == PlainAllowed(s)
  {
    if s == [] || s[0] == ' ' || s[|s| - 1] == ' ' || s[0] in INDICATORS {
      return false;
    }
    if (s[0] == '?' || s[0] == ':' || s[0] == '-') && (|s| == 1 || s[1] == ' ') {
      return false;
    }
    FindColonFinds(s);
    for i := 0 to |s|
      invariant forall j :: 0 <= j < i ==> !EndsAt(s, j)
      invariant forall j :: 0 < j < i && s[j] == '#' ==> s[j - 1] != ' '
    {
      if s[i] == ':' && (i + 1 == |s| || s[i + 1] == ' ') {
        assert EndsAt(s, i);
        return false;
      }
      if s[i] == '#' && i > 0 && s[i - 1] == ' ' {
        return false;
      }
    }
    FindColonIs(s, |s|);
    ok := true;
  }

  /* What YAML takes for a plain scalar, letter by letter. */

  predicate Blank(c: char) { c == ' ' || c == '\t' }

  /** The rest of a plain scalar behind a letter: no colon before a blank or the end, no hash behind a blank. */
  predicate PlainFrom(prev: char, t: string)
    decreases |t|
  {
    if t == [] then !Blank(prev)
    else
      (t[0] == ':' ==> |t| > 1 && !Blank(t[1])) && (t[0] == '#' ==> !Blank(prev)) && PlainFrom(t[0], t[1..])
  }

  /** Three indicators may start a plain scalar when something other than a blank follows. */
  predicate YamlPlain(t: string) {
    t != [] && !Blank(t[0]) &&
    (if t[0] == '-' || t[0] == '?' || t[0] == ':' then |t| > 1 && !Blank(t[1]) else t[0] !in "[]{},#&*!|>'\"%@`") &&
    PlainFrom(t[0], t[1..])
  }

  lemma NoCommentBehind(prev: char, t: string)
    ensures NoComment([prev] + t) <==> (t != [] && t[0] == '#' ==> prev != ' ') && NoComment(t)
  {
    var s := [prev] + t;
    if NoComment(s) {
      assert t != [] ==> s[1] == t[0] && s[0] == prev;
      forall i | 0 < i < |t| && t[i] == '#'
        ensures t[i - 1] != ' '
      {
        assert s[i + 1] == t[i] && s[i + 1 - 1] == t[i - 1];
      }
    } else {
      var i :| 0 < i < |s| && s[i] == '#' && s[i - 1] == ' ';
      assert s[i] == t[i - 1] && s[i - 1] == if i == 1 then prev else t[i - 2];
      if i > 1 {
        assert t[i - 1] == '#' && t[i - 1 - 1] == ' ';
      }
    }
  }

  lemma {:induction false} PlainFromIs(prev: char, t: string)
    requires prev != '\t' && '\t' !in t
    ensures PlainFrom(prev, t) <==>
            (if t == [] then prev else t[|t| - 1]) != ' ' && FindColon(t) == |t| && NoComment([prev] + t)
    decreases |t|
  {
    hide NoComment;
    NoCommentBehind(prev, t);
    if t == [] {
      assert NoComment([]) by { NothingCommented(); }
    } else {
      PlainFromIs(t[0], t[1..]);
      assert [t[0]] + t[1..] == t;
    }
  }

  lemma NothingCommented()
    ensures NoComment([])
  {
  }

  /** Of texts without a tab the emitter writes plain exactly what the reader takes for plain. */
  lemma PlainIsYaml(s: string)
    requires '\t' !in s
    ensures PlainAllowed(s) <==> YamlPlain(s)
  {
    hide NoComment, PlainFrom;
    if s != [] {
      PlainFromIs(s[0], s[1..]);
      assert [s[0]] + s[1..] == s;
    }
  }

  function ReadLeaf(t: string): Option<Node> {
    if t == [] then None
    else if t[0] == '"' then
      (match ReadDouble(t[1..])
       case None => None
       case Some(s) => Some(Leaf(Double, s)))
    else if t[0] == '\'' then
      (match ReadSingle(t[1..])
       case None => None
       case Some(s) => Some(Leaf(Single, s)))
    else if YamlPlain(t) then Some(Leaf(Plain, t))
    else None
  }

  predicate GoodLeaf(style: Style, text: string) {
    (style == Plain ==> PlainAllowed(text) && '\t' !in text) && '\n' !in text
  }

  lemma LeafRoundTrip(style: Style, text: string)
    requires GoodLeaf(style, text)
    ensures ReadLeaf(Show(style, text)) == Some(Leaf(style, text))
  {
    hide ReadDouble, ReadSingle, EscapeDouble, EscapeSingle, FindColon, NoComment, YamlPlain;
    var t := Show(style, text);
    match style
    case Plain => PlainIsYaml(text);
    case Double =>
      DoubleRoundTrip(text);
      assert t[1..] == EscapeDouble(text) + "\"";
    case Single =>
      SingleRoundTrip(text);
      assert t[1..] == EscapeSingle(text) + "'";
  }

  /* Lines. */

  datatype Line = Line(indent: nat, text: string)

  ghost predicate GoodLine(l: Line) {
    l.text != [] && l.text[0] != ' ' && '\n' !in l.text
  }

  function Spaces(n: nat): string {
    seq(n, i => ' ')
  }

  function Text(lines: seq<Line>): string {
    if lines == [] then [] else Spaces(lines[0].indent) + lines[0].text + "\n" + Text(lines[1..])
  }

  function LeadingSpaces(s: string): (n: nat)
    ensures n <= |s|
  {
    if s != [] && s[0] == ' ' then 1 + LeadingSpaces(s[1..]) else 0
  }

  function FindBreak(s: string): (n: nat)
    ensures n <= |s|
  {
    if s == [] || s[0] == '\n' then 0 else 1 + FindBreak(s[1..])
  }

  /** The lines of a text, all of which end in a break and none of which is blank. */
  function Lines(s: string): Option<seq<Line>>
    decreases |s|
  {
    if s == [] then Some([])
    else
      var n := FindBreak(s);
      if n == |s| then None
      else
        var k := LeadingSpaces(s[..n]);
        if k == n then None
        else
          match Lines(s[n + 1..])
          case None => None
          case Some(more) => Some([Line(k, s[k..n])] + more)
  }

  lemma {:induction false} BreakIs(a: string, b: string)
    requires '\n' !in a
    ensures FindBreak(a + "\n" + b) == |a|
  {
    var s := a + "\n" + b;
    if a != [] {
      assert s[1..] == a[1..] + "\n" + b;
      assert s[0] == a[0] && a[0] in a;
      BreakIs(a[1..], b);
    }
  }

  lemma {:induction false} SpacesLead(n: nat, t: string)
    requires t != [] && t[0] != ' '
    ensures LeadingSpaces(Spaces(n) + t) == n
  {
    var s := Spaces(n) + t;
    if n == 0 {
      assert s == t;
    } else {
      assert s[1..] == Spaces(n - 1) + t;
      SpacesLead(n - 1, t);
    }
  }

  /** The first line of a text. */
  lemma FirstLine(l: Line, rest: string)
    requires GoodLine(l)
    ensures Lines(Spaces(l.indent) + l.text + "\n" + rest) == match Lines(rest) {
        case None => None
        case Some(more) => Some([l] + more)
      }
  {
    hide FindBreak, LeadingSpaces;
    var head := Spaces(l.indent) + l.text;
    var s := head + "\n" + rest;
    var n := |head|;
    BreakIs(head, rest);
    SpacesLead(l.indent, l.text);
    assert s[..n] == head && s[n + 1..] == rest;
    assert s[l.indent..n] == l.text;
  }

  lemma {:induction false} LinesRoundTrip(lines: seq<Line>)
    requires forall l :: l in lines ==> GoodLine(l)
    ensures Lines(Text(lines)) == Some(lines)
  {
    hide Lines, GoodLine;
    if lines == [] {
      NoLines();
    } else {
      LinesRoundTrip(lines[1..]);
      FirstLine(lines[0], Text(lines[1..]));
      assert [lines[0]] + lines[1..] == lines;
    }
  }

  lemma NoLines()
    ensures Lines([]) == Some([])
  {
  }

  /* Printing. */

  function PrintMap(fields: seq<Field>, indent: nat): seq<Line>
    decreases fields
  {
    if fields == [] then [] else PrintField(fields[0].key, fields[0].value, indent) + PrintMap(fields[1..], indent)
  }

  function PrintField(key: string, value: Node, indent: nat): (lines: seq<Line>)
    ensures lines != [] && lines[0].indent == indent && key + ":" <= lines[0].text
    decreases value
  {
    match value
    case Leaf(style, text) => [Line(indent, key + ": " + Show(style, text))]
    case EmptyMap => [Line(indent, key + ": {}")]
    case Map(fields) => [Line(indent, key + ":")] + PrintMap(fields, indent + CANONICAL_INDENT)
    case List(items) => [Line(indent, key + ":")] + PrintList(items, indent + CANONICAL_INDENT)
  }

  function PrintList(items: seq<Node>, indent: nat): seq<Line>
    decreases items
  {
    if items == [] then [] else PrintItem(items[0], indent) + PrintList(items[1..], indent)
  }

  /** An item that is a mapping has its first key on the dash line and the rest two columns further in. */
  function PrintItem(item: Node, indent: nat): seq<Line>
    decreases item
  {
    match item
    case Leaf(style, text) => [Line(indent, "- " + Show(style, text))]
    case Map(fields) => Dashed(PrintMap(fields, indent + 2), indent)
    case _ => []
  }

  function Dashed(lines: seq<Line>, indent: nat): seq<Line> {
    if lines == [] then [] else [Line(indent, "- " + lines[0].text)] + lines[1..]
  }

  /* Reading. */

  predicate Dash(t: string) {
    |t| >= 2 && t[0] == '-' && t[1] == ' '
  }

  /** A line that holds a key: not quoted, and with a colon that ends one. */
  predicate IsField(t: string) {
    t != [] && t[0] != '"' && t[0] != '\'' && FindColon(t) < |t|
  }

  datatype Got<T> = Got(value: T, rest: seq<Line>)

  function ReadMap(lines: seq<Line>, indent: nat): (r: Option<Got<seq<Field>>>)
    ensures r.Some? ==> |r.value.rest| <= |lines|
    ensures r.Some? && r.value.value != [] ==> |r.value.rest| < |lines|
    decreases |lines|, 0
  {
    if lines == [] || lines[0].indent < indent then Some(Got([], lines))
    else if lines[0].indent > indent || !IsField(lines[0].text) then None
    else
      var t := lines[0].text;
      var i := FindColon(t);
      var value :=
        if i + 1 == |t| then ReadBlock(lines[1..], indent)
        else
          var rest := t[i + 2..];
          var leaf := if rest == "{}" then Some(EmptyMap) else ReadLeaf(rest);
          if leaf.None? then None else Some(Got(leaf.value, lines[1..]));
      if value.None? then None
      else
        match ReadMap(value.value.rest, indent)
        case None => None
        case Some(more) => Some(Got([Field(t[..i], value.value.value)] + more.value, more.rest))
  }

  /** What stands under a key: a block further in. */
  function ReadBlock(lines: seq<Line>, indent: nat): (r: Option<Got<Node>>)
    ensures r.Some? ==> |r.value.rest| <= |lines|
    decreases |lines|, 3
  {
    if lines == [] || lines[0].indent <= indent then None
    else if Dash(lines[0].text) then
      match ReadList(lines, lines[0].indent)
      case None => None
      case Some(g) => Some(Got(List(g.value), g.rest))
    else
      match ReadMap(lines, lines[0].indent)
      case None => None
      case Some(g) => Some(Got(Map(g.value), g.rest))
  }

  function ReadList(lines: seq<Line>, indent: nat): (r: Option<Got<seq<Node>>>)
    ensures r.Some? ==> |r.value.rest| <= |lines|
    decreases |lines|, 2
  {
    if lines == [] || lines[0].indent < indent then Some(Got([], lines))
    else if lines[0].indent > indent || !Dash(lines[0].text) then None
    else
      match ReadItem(lines, indent)
      case None => None
      case Some(item) =>
        if |item.rest| >= |lines| then None
        else
          match ReadList(item.rest, indent)
          case None => None
          case Some(more) => Some(Got([item.value] + more.value, more.rest))
  }

  /** One item of a list: a scalar, or a mapping whose first key follows the dash. */
  function ReadItem(lines: seq<Line>, indent: nat): (r: Option<Got<Node>>)
    requires lines != [] && Dash(lines[0].text)
    ensures r.Some? ==> |r.value.rest| <= |lines|
    decreases |lines|, 1
  {
    var body := lines[0].text[2..];
    if IsField(body) then
      match ReadMap([Line(indent + 2, body)] + lines[1..], indent + 2)
      case None => None
      case Some(g) => Some(Got(Map(g.value), g.rest))
    else
      match ReadLeaf(body)
      case None => None
      case Some(leaf) => Some(Got(leaf, lines[1..]))
  }

  /* Reading what was printed. */

  predicate Letter(c: char) { 'a' <= c <= 'z' || 'A' <= c <= 'Z' }

  predicate GoodKey(key: string) {
    key != [] && forall i :: 0 <= i < |key| ==> Letter(key[i])
  }

  /** Blocks are not empty, and a list holds scalars and mappings. */
  predicate GoodNode(n: Node)
    decreases n
  {
    match n
    case Leaf(style, text) => GoodLeaf(style, text)
    case EmptyMap => true
    case Map(fields) => fields != [] && forall f :: f in fields ==> GoodField(f)
    case List(items) => items != [] && forall item :: item in items ==> (item.Leaf? || item.Map?) && GoodNode(item)
  }

  predicate GoodField(f: Field)
    decreases f
  {
    GoodKey(f.key) && GoodNode(f.value)
  }

  predicate Ends(rest: seq<Line>, indent: nat) {
    rest == [] || rest[0].indent < indent
  }

  lemma KeySplits(key: string, tail: string)
    requires GoodKey(key) && (tail == [] || tail[0] == ' ')
    ensures FindColon(key + ":" + tail) == |key| && IsField(key + ":" + tail) && !Dash(key + ":" + tail)
    ensures (key + ":" + tail)[..|key|] == key
  {
    var t := key + ":" + tail;
    assert t[0] == key[0] && Letter(key[0]);
    forall j | 0 <= j < |key|
      ensures !EndsAt(t, j)
    {
      assert t[j] == key[j] && Letter(key[j]);
    }
    assert EndsAt(t, |key|) by {
      assert tail != [] ==> t[|key| + 1] == tail[0];
    }
    FindColonIs(t, |key|);
  }

  lemma ReadMapInline(key: string, body: string, value: Node, indent: nat, rest: seq<Line>)
    requires GoodKey(key) && body != []
    requires if body == "{}" then value == EmptyMap else ReadLeaf(body) == Some(value)
    ensures ReadMap([Line(indent, key + ": " + body)] + rest, indent) == match ReadMap(rest, indent) {
        case None => None
        case Some(more) => Some(Got([Field(key, value)] + more.value, more.rest))
      }
  {
    hide ReadLeaf, ReadBlock, IsField, FindColon;
    KeySplits(key, " " + body);
    var t := key + ": " + body;
    assert t == key + ":" + (" " + body);
    assert t[|key| + 2..] == body;
    var lines := [Line(indent, t)] + rest;
    assert lines[1..] == rest;
  }

  lemma ReadMapBlock(key: string, indent: nat, rest: seq<Line>)
    requires GoodKey(key)
    ensures ReadMap([Line(indent, key + ":")] + rest, indent) == match ReadBlock(rest, indent) {
        case None => None
        case Some(block) =>
          match ReadMap(block.rest, indent) {
            case None => None
            case Some(more) => Some(Got([Field(key, block.value)] + more.value, more.rest))
          }
      }
  {
    hide ReadLeaf, ReadBlock, IsField, FindColon;
    KeySplits(key, []);
    var t := key + ":";
    assert t == key + ":" + [];
    var lines := [Line(indent, t)] + rest;
    assert lines[1..] == rest;
  }

  lemma ShowIsNoField(style: Style, text: string)
    requires GoodLeaf(style, text)
    ensures !IsField(Show(style, text)) && Show(style, text) != [] && Show(style, text) != "{}"
  {
    hide EscapeDouble, EscapeSingle, NoComment;
    if style == Plain {
      FindColonFinds(text);
    }
  }

  lemma PrintStarts(fields: seq<Field>, indent: nat)
    requires fields != [] && forall f :: f in fields ==> GoodField(f)
    ensures var lines := PrintMap(fields, indent);
            lines != [] && lines[0].indent == indent && IsField(lines[0].text) && !Dash(lines[0].text)
  {
    hide FindColon, Show, PrintList, IsField;
    var f := fields[0];
    assert GoodField(f);
    var t := PrintField(f.key, f.value, indent)[0].text;
    KeySplits(f.key, []);
    assert f.key + ":" + [] == f.key + ":";
    match f.value
    case Leaf(style, text) =>
      KeySplits(f.key, " " + Show(style, text));
      assert t == f.key + ":" + (" " + Show(style, text));
    case EmptyMap =>
      KeySplits(f.key, " {}");
      assert t == f.key + ":" + " {}";
    case _ =>
  }

  lemma ListStarts(items: seq<Node>, indent: nat)
    requires GoodNode(List(items))
    ensures var lines := PrintList(items, indent);
            lines != [] && lines[0].indent == indent && Dash(lines[0].text)
  {
    hide Show, PrintMap, IsField;
    var item := items[0];
    assert item in items;
    if item.Map? {
      PrintStarts(item.fields, indent + 2);
    }
  }

  lemma {:induction false} MapRoundTrip(fields: seq<Field>, indent: nat, rest: seq<Line>)
    requires (forall f :: f in fields ==> GoodField(f)) && Ends(rest, indent)
    ensures ReadMap(PrintMap(fields, indent) + rest, indent) == Some(Got(fields, rest))
    decreases fields, 1
  {
    hide ReadMap, ReadBlock, ReadLeaf, Show, GoodNode, GoodKey, PrintField;
    if fields == [] {
      MapEnds(rest, indent);
      assert PrintMap(fields, indent) + rest == rest;
    } else {
      var f := fields[0];
      assert GoodField(f);
      var more := PrintMap(fields[1..], indent) + rest;
      MapRoundTrip(fields[1..], indent, rest);
      MoreEnds(fields[1..], indent, rest);
      FieldRoundTrip(f.key, f.value, indent, more, fields[1..], rest);
      assert PrintMap(fields, indent) + rest == PrintField(f.key, f.value, indent) + more;
      assert [f] + fields[1..] == fields;
    }
  }

  lemma MapEnds(rest: seq<Line>, indent: nat)
    requires Ends(rest, indent)
    ensures ReadMap(rest, indent) == Some(Got([], rest))
  {
  }

  lemma MoreEnds(fields: seq<Field>, indent: nat, rest: seq<Line>)
    requires Ends(rest, indent) && forall f :: f in fields ==> GoodField(f)
    ensures Ends(PrintMap(fields, indent) + rest, indent + 1)
  {
    hide IsField, Dash;
    if fields != [] {
      PrintStarts(fields, indent);
    }
  }

  lemma LeafField(key: string, style: Style, text: string, indent: nat, more: seq<Line>)
    requires GoodKey(key) && GoodLeaf(style, text)
    ensures ReadMap(PrintField(key, Leaf(style, text), indent) + more, indent) == match ReadMap(more, indent) {
        case None => None
        case Some(g) => Some(Got([Field(key, Leaf(style, text))] + g.value, g.rest))
      }
  {
    LeafRoundTrip(style, text);
    ShowIsNoField(style, text);
    hide ReadMap, ReadLeaf, Show, GoodLeaf, GoodKey, IsField;
    ReadMapInline(key, Show(style, text), Leaf(style, text), indent, more);
  }

  lemma EmptyField(key: string, indent: nat, more: seq<Line>)
    requires GoodKey(key)
    ensures ReadMap(PrintField(key, EmptyMap, indent) + more, indent) == match ReadMap(more, indent) {
        case None => None
        case Some(g) => Some(Got([Field(key, EmptyMap)] + g.value, g.rest))
      }
  {
    hide ReadMap, ReadLeaf, GoodKey;
    ReadMapInline(key, "{}", EmptyMap, indent, more);
    assert key + ": " + "{}" == key + ": {}";
  }

  lemma BlockIsMap(block: seq<Line>, more: seq<Line>, indent: nat, deeper: nat, fields: seq<Field>)
    requires block != [] && block[0].indent == deeper && deeper > indent && !Dash(block[0].text)
    requires ReadMap(block + more, deeper) == Some(Got(fields, more))
    ensures ReadBlock(block + more, indent) == Some(Got(Map(fields), more))
  {
    hide ReadMap, ReadList, Dash;
    assert (block + more)[0] == block[0];
  }

  lemma BlockIsList(block: seq<Line>, more: seq<Line>, indent: nat, deeper: nat, items: seq<Node>)
    requires block != [] && block[0].indent == deeper && deeper > indent && Dash(block[0].text)
    requires ReadList(block + more, deeper) == Some(Got(items, more))
    ensures ReadBlock(block + more, indent) == Some(Got(List(items), more))
  {
    hide ReadMap, ReadList, Dash;
    assert (block + more)[0] == block[0];
  }

  /** A key with its block, given that the block reads. */
  lemma BlockField(key: string, value: Node, block: seq<Line>, indent: nat, more: seq<Line>)
    requires GoodKey(key) && PrintField(key, value, indent) == [Line(indent, key + ":")] + block
    requires ReadBlock(block + more, indent) == Some(Got(value, more))
    ensures ReadMap(PrintField(key, value, indent) + more, indent) == match ReadMap(more, indent) {
        case None => None
        case Some(g) => Some(Got([Field(key, value)] + g.value, g.rest))
      }
  {
    hide ReadMap, ReadBlock, GoodKey, PrintField;
    ReadMapBlock(key, indent, block + more);
    assert [Line(indent, key + ":")] + block + more == [Line(indent, key + ":")] + (block + more);
  }

  lemma {:induction false} FieldRoundTrip(key: string, value: Node, indent: nat, more: seq<Line>, others: seq<Field>, rest: seq<Line>)
    requires GoodKey(key) && GoodNode(value) && Ends(more, indent + 1)
    requires ReadMap(more, indent) == Some(Got(others, rest))
    ensures ReadMap(PrintField(key, value, indent) + more, indent) == Some(Got([Field(key, value)] + others, rest))
    decreases value, 1
  {
    hide ReadMap, ReadBlock, ReadList, GoodKey, GoodLeaf, Show, PrintMap, PrintList, GoodField, Dash, IsField;
    var deeper := indent + CANONICAL_INDENT;
    match value
    case Leaf(style, text) => LeafField(key, style, text, indent, more);
    case EmptyMap => EmptyField(key, indent, more);
    case Map(fields) =>
      PrintStarts(fields, deeper);
      MapRoundTrip(fields, deeper, more);
      BlockIsMap(PrintMap(fields, deeper), more, indent, deeper, fields);
      BlockField(key, value, PrintMap(fields, deeper), indent, more);
    case List(items) =>
      ListStarts(items, deeper);
      ListRoundTrip(items, deeper, more);
      BlockIsList(PrintList(items, deeper), more, indent, deeper, items);
      BlockField(key, value, PrintList(items, deeper), indent, more);
  }

  lemma ReadListAt(lines: seq<Line>, indent: nat, item: Node, more: seq<Line>, others: seq<Node>, rest: seq<Line>)
    requires lines != [] && lines[0].indent == indent && Dash(lines[0].text) && |more| < |lines|
    requires ReadItem(lines, indent) == Some(Got(item, more)) && ReadList(more, indent) == Some(Got(others, rest))
    ensures ReadList(lines, indent) == Some(Got([item] + others, rest))
  {
    hide ReadItem, Dash;
  }

  lemma ListEnds(rest: seq<Line>, indent: nat)
    requires Ends(rest, indent)
    ensures ReadList(rest, indent) == Some(Got([], rest))
  {
    hide ReadItem;
  }

  lemma PrintListSteps(items: seq<Node>, indent: nat, rest: seq<Line>)
    ensures items == [] ==> PrintList(items, indent) + rest == rest
    ensures items != [] ==>
      PrintList(items, indent) + rest == PrintItem(items[0], indent) + (PrintList(items[1..], indent) + rest)
  {
    hide PrintItem;
  }

  lemma {:induction false} ListRoundTrip(items: seq<Node>, indent: nat, rest: seq<Line>)
    requires (forall item :: item in items ==> (item.Leaf? || item.Map?) && GoodNode(item)) && Ends(rest, indent)
    ensures ReadList(PrintList(items, indent) + rest, indent) == Some(Got(items, rest))
    decreases items, 1
  {
    hide ReadItem, ReadList, PrintItem, PrintList, Dash, GoodNode;
    PrintListSteps(items, indent, rest);
    if items == [] {
      ListEnds(rest, indent);
    } else {
      var item := items[0];
      assert item in items;
      var more := PrintList(items[1..], indent) + rest;
      ItemsEnd(items[1..], indent, rest);
      ListRoundTrip(items[1..], indent, rest);
      ItemRoundTrip(item, indent, more);
      ReadListAt(PrintItem(item, indent) + more, indent, item, more, items[1..], rest);
      assert [item] + items[1..] == items;
    }
  }

  lemma ItemsEnd(items: seq<Node>, indent: nat, rest: seq<Line>)
    requires (forall item :: item in items ==> (item.Leaf? || item.Map?) && GoodNode(item)) && Ends(rest, indent)
    ensures Ends(PrintList(items, indent) + rest, indent + 1)
  {
    if items != [] {
      ListStarts(items, indent);
      hide PrintList, Dash;
    }
  }

  lemma LeafItem(style: Style, text: string, indent: nat, more: seq<Line>)
    requires GoodLeaf(style, text)
    ensures ReadItem([Line(indent, "- " + Show(style, text))] + more, indent) == Some(Got(Leaf(style, text), more))
  {
    LeafRoundTrip(style, text);
    ShowIsNoField(style, text);
    hide ReadMap, ReadLeaf, Show, GoodLeaf, IsField;
    var lines := [Line(indent, "- " + Show(style, text))] + more;
    assert lines[0].text[2..] == Show(style, text);
    assert lines[1..] == more;
  }

  lemma MapItem(inner: seq<Line>, fields: seq<Field>, indent: nat, more: seq<Line>)
    requires inner != [] && inner[0].indent == indent + 2 && IsField(inner[0].text)
    requires ReadMap(inner + more, indent + 2) == Some(Got(fields, more))
    ensures ReadItem(Dashed(inner, indent) + more, indent) == Some(Got(Map(fields), more))
  {
    hide ReadMap, ReadLeaf, IsField;
    var lines := Dashed(inner, indent) + more;
    assert lines[0].text[2..] == inner[0].text;
    assert [Line(indent + 2, inner[0].text)] + lines[1..] == inner + more;
  }

  lemma {:induction false} ItemRoundTrip(item: Node, indent: nat, more: seq<Line>)
    requires (item.Leaf? || item.Map?) && GoodNode(item) && Ends(more, indent + 1)
    ensures var lines := PrintItem(item, indent) + more;
            |lines| > |more| && lines[0].indent == indent && Dash(lines[0].text) &&
            ReadItem(lines, indent) == Some(Got(item, more))
    decreases item, 0
  {
    hide ReadMap, ReadItem, Show, GoodLeaf, IsField, GoodField, PrintMap;
    match item
    case Leaf(style, text) => LeafItem(style, text, indent, more);
    case Map(fields) =>
      PrintStarts(fields, indent + 2);
      MapRoundTrip(fields, indent + 2, more);
      MapItem(PrintMap(fields, indent + 2), fields, indent, more);
  }

  /* Whole documents. */

  ghost predicate GoodLines(lines: seq<Line>) {
    forall l :: l in lines ==> GoodLine(l)
  }

  lemma {:induction false} EscapesKeepLine(s: string)
    requires '\n' !in s
    ensures '\n' !in EscapeDouble(s) && '\n' !in EscapeSingle(s)
  {
    if s != [] {
      assert s[0] in s && forall c :: c in s[1..] ==> c in s;
      EscapesKeepLine(s[1..]);
    }
  }

  lemma ShowKeepsLine(style: Style, text: string)
    requires GoodLeaf(style, text)
    ensures '\n' !in Show(style, text)
  {
    hide FindColon, NoComment;
    EscapesKeepLine(text);
    hide EscapeDouble, EscapeSingle;
  }

  lemma KeyKeepsLine(key: string, indent: nat, tail: string)
    requires GoodKey(key) && '\n' !in tail
    ensures GoodLine(Line(indent, key + ":" + tail))
  {
    assert Letter(key[0]);
    forall c | c in key
      ensures c != '\n'
    {
      var i :| 0 <= i < |key| && key[i] == c;
    }
  }

  lemma GoodJoin(a: seq<Line>, b: seq<Line>)
    requires GoodLines(a) && GoodLines(b)
    ensures GoodLines(a + b)
  {
  }

  lemma GoodOne(l: Line)
    requires GoodLine(l)
    ensures GoodLines([l])
  {
  }

  lemma {:induction false} MapLinesAreGood(fields: seq<Field>, indent: nat)
    requires forall f :: f in fields ==> GoodField(f)
    ensures GoodLines(PrintMap(fields, indent))
    decreases fields, 1
  {
    hide PrintField, GoodNode, GoodKey, GoodLine;
    if fields != [] {
      assert GoodField(fields[0]);
      FieldLinesAreGood(fields[0].key, fields[0].value, indent);
      MapLinesAreGood(fields[1..], indent);
      GoodJoin(PrintField(fields[0].key, fields[0].value, indent), PrintMap(fields[1..], indent));
    }
  }

  lemma {:induction false} FieldLinesAreGood(key: string, value: Node, indent: nat)
    requires GoodKey(key) && GoodNode(value)
    ensures GoodLines(PrintField(key, value, indent))
    decreases value, 1
  {
    hide GoodKey, GoodLine, GoodLines, Show, GoodField, PrintMap, PrintList, GoodLeaf;
    KeyKeepsLine(key, indent, []);
    assert key + ":" + [] == key + ":";
    GoodOne(Line(indent, key + ":"));
    match value
    case Leaf(style, text) =>
      ShowKeepsLine(style, text);
      KeyKeepsLine(key, indent, " " + Show(style, text));
      assert key + ": " + Show(style, text) == key + ":" + (" " + Show(style, text));
      GoodOne(Line(indent, key + ": " + Show(style, text)));
    case EmptyMap =>
      KeyKeepsLine(key, indent, " {}");
      assert key + ": {}" == key + ":" + " {}";
      GoodOne(Line(indent, key + ": {}"));
    case Map(fields) =>
      MapLinesAreGood(fields, indent + CANONICAL_INDENT);
      GoodJoin([Line(indent, key + ":")], PrintMap(fields, indent + CANONICAL_INDENT));
    case List(items) =>
      ListLinesAreGood(items, indent + CANONICAL_INDENT);
      GoodJoin([Line(indent, key + ":")], PrintList(items, indent + CANONICAL_INDENT));
  }

  lemma {:induction false} ListLinesAreGood(items: seq<Node>, indent: nat)
    requires forall item :: item in items ==> (item.Leaf? || item.Map?) && GoodNode(item)
    ensures GoodLines(PrintList(items, indent))
    decreases items, 1
  {
    hide PrintItem, GoodNode, GoodLine;
    if items != [] {
      assert items[0] in items;
      ItemLinesAreGood(items[0], indent);
      ListLinesAreGood(items[1..], indent);
      GoodJoin(PrintItem(items[0], indent), PrintList(items[1..], indent));
    }
  }

  lemma DashedIsGood(lines: seq<Line>, indent: nat)
    requires GoodLines(lines)
    ensures GoodLines(Dashed(lines, indent))
  {
    if lines != [] {
      assert GoodLine(lines[0]);
    }
  }

  lemma {:induction false} ItemLinesAreGood(item: Node, indent: nat)
    requires (item.Leaf? || item.Map?) && GoodNode(item)
    ensures GoodLines(PrintItem(item, indent))
    decreases item, 0
  {
    hide Show, GoodField, PrintMap, GoodLeaf, Dashed;
    match item
    case Leaf(style, text) =>
      ShowKeepsLine(style, text);
    case Map(fields) =>
      MapLinesAreGood(fields, indent + 2);
      DashedIsGood(PrintMap(fields, indent + 2), indent);
  }

  function Document(fields: seq<Field>): string {
    Text(PrintMap(fields, 0))
  }

  function ReadDocument(s: string): Option<seq<Field>> {
    match Lines(s)
    case None => None
    case Some(lines) =>
      match ReadMap(lines, 0)
      case None => None
      case Some(g) => if g.rest == [] then Some(g.value) else None
  }

  /** Reading a printed document gives the document back. */
  lemma DocumentRoundTrip(fields: seq<Field>)
    requires forall f :: f in fields ==> GoodField(f)
    ensures ReadDocument(Document(fields)) == Some(fields)
  {
    hide Lines, ReadMap, PrintMap, GoodField, Text, GoodLine;
    var lines := PrintMap(fields, 0);
    MapLinesAreGood(fields, 0);
    LinesRoundTrip(lines);
    MapRoundTrip(fields, 0, []);
    assert lines + [] == lines;
  }
}
