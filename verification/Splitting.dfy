/** strings.Split over a one-letter separator. */
module Splitting {
  function Split<T(==)>(s: seq<T>, sep: T): (parts: seq<seq<T>>)
    ensures parts != []
  {
    if s == [] then [[]]
    else
      var rest := Split(s[1..], sep);
      if s[0] == sep then [[]] + rest else [[s[0]] + rest[0]] + rest[1..]
  }

  function Join<T>(parts: seq<seq<T>>, sep: T): seq<T>
    requires parts != []
  {
    if |parts| == 1 then parts[0] else parts[0] + [sep] + Join(parts[1..], sep)
  }

  /** Splitting loses nothing, and no part has the separator in it. */
  lemma SplitIsExact<T>(s: seq<T>, sep: T)
    ensures Join(Split(s, sep), sep) == s
    ensures forall i :: 0 <= i < |Split(s, sep)| ==> sep !in Split(s, sep)[i]
  {
    hide Split, Join;
    SplitJoins(s, sep);
    SplitParts(s, sep);
  }

  lemma JoinHead<T>(c: T, first: seq<T>, more: seq<seq<T>>, sep: T)
    ensures Join([[c] + first] + more, sep) == [c] + Join([first] + more, sep)
  {
    assert ([[c] + first] + more)[1..] == more && ([first] + more)[1..] == more;
  }

  lemma {:induction false} SplitJoins<T>(s: seq<T>, sep: T)
    ensures Join(Split(s, sep), sep) == s
  {
    if s != [] {
      SplitJoins(s[1..], sep);
      var rest := Split(s[1..], sep);
      if s[0] == sep {
        assert ([[]] + rest)[1..] == rest;
      } else {
        hide Split, Join;
        JoinHead(s[0], rest[0], rest[1..], sep);
        assert [rest[0]] + rest[1..] == rest;
        assert [s[0]] + s[1..] == s;
      }
    }
  }

  lemma {:induction false} SplitParts<T>(s: seq<T>, sep: T)
    ensures forall i :: 0 <= i < |Split(s, sep)| ==> sep !in Split(s, sep)[i]
  {
    if s != [] {
      SplitParts(s[1..], sep);
    }
  }

  lemma {:induction false} SplitPart<T>(part: seq<T>, more: seq<T>, sep: T)
    requires sep !in part
    ensures Split(part + [sep] + more, sep) == [part] + Split(more, sep)
  {
    var s := part + [sep] + more;
    if part == [] {
      assert s[0] == sep && s[1..] == more;
    } else {
      assert s[0] == part[0] && s[1..] == part[1..] + [sep] + more;
      SplitPart(part[1..], more, sep);
      assert [part[0]] + part[1..] == part;
      assert ([part[1..]] + Split(more, sep))[1..] == Split(more, sep);
    }
  }

  lemma {:induction false} SplitNone<T>(part: seq<T>, sep: T)
    requires sep !in part
    ensures Split(part, sep) == [part]
  {
    if part != [] {
      SplitNone(part[1..], sep);
      assert part[0] in part;
      assert [part[0]] + part[1..] == part;
    }
  }

  /** Joining and splitting again gives the parts back. */
  lemma {:induction false} JoinSplits<T>(parts: seq<seq<T>>, sep: T)
    requires parts != [] && forall i :: 0 <= i < |parts| ==> sep !in parts[i]
    ensures Split(Join(parts, sep), sep) == parts
  {
    hide Split;
    if |parts| == 1 {
      SplitNone(parts[0], sep);
    } else {
      JoinSplits(parts[1..], sep);
      SplitPart(parts[0], Join(parts[1..], sep), sep);
      assert [parts[0]] + parts[1..] == parts;
    }
  }
}
