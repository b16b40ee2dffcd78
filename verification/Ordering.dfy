/**
 Sorting the keys of a map.  Go's sort.Strings compares byte strings lexicographically, and what the
 printers need of it is only that a set of keys has one sorted sequence, whatever order the keys were
 met in.  `rank` is the code of one letter; it is injective wherever these lemmas are used.
 */
module Ordering {

  predicate Less<T>(rank: T -> int, a: seq<T>, b: seq<T>) {
    if b == [] then false
    else if a == [] then true
    else if rank(a[0]) != rank(b[0]) then rank(a[0]) < rank(b[0])
    else Less(rank, a[1..], b[1..])
  }

  ghost predicate Injective<T(!new)>(rank: T -> int) {
    forall x, y :: rank(x) == rank(y) ==> x == y
  }

  ghost predicate Sorted<T>(rank: T -> int, keys: seq<seq<T>>) {
    forall i, j :: 0 <= i < j < |keys| ==> Less(rank, keys[i], keys[j])
  }

  ghost function Elements<X>(s: seq<X>): set<X> {
    set x | x in s
  }

  lemma {:induction false} LessIrreflexive<T>(rank: T -> int, a: seq<T>)
    ensures !Less(rank, a, a)
  {
    if a != [] {
      LessIrreflexive(rank, a[1..]);
    }
  }

  lemma {:induction false} LessTransitive<T>(rank: T -> int, a: seq<T>, b: seq<T>, c: seq<T>)
    requires Less(rank, a, b) && Less(rank, b, c)
    ensures Less(rank, a, c)
  {
    if a != [] && rank(a[0]) == rank(b[0]) == rank(c[0]) {
      LessTransitive(rank, a[1..], b[1..], c[1..]);
    }
  }

  lemma {:induction false} LessConnected<T(!new)>(rank: T -> int, a: seq<T>, b: seq<T>)
    requires Injective(rank) && a != b
    ensures Less(rank, a, b) || Less(rank, b, a)
  {
    if a != [] && b != [] && rank(a[0]) == rank(b[0]) {
      assert a == [a[0]] + a[1..] && b == [b[0]] + b[1..];
      LessConnected(rank, a[1..], b[1..]);
    }
  }

  /** A set has at most one sorted sequence. */
  lemma {:induction false} SortedUnique<T>(rank: T -> int, s: seq<seq<T>>, t: seq<seq<T>>)
    requires Sorted(rank, s) && Sorted(rank, t) && Elements(s) == Elements(t)
    ensures s == t
  {
    assert s != [] ==> s[0] in Elements(t);
    assert t != [] ==> t[0] in Elements(s);
    if s != [] && t != [] {
      SameFirst(rank, s, t);
      TailElements(rank, s);
      TailElements(rank, t);
      SortedUnique(rank, s[1..], t[1..]);
      assert s == [s[0]] + s[1..] && t == [t[0]] + t[1..];
    }
  }

  lemma SameFirst<T>(rank: T -> int, s: seq<seq<T>>, t: seq<seq<T>>)
    requires Sorted(rank, s) && Sorted(rank, t) && Elements(s) == Elements(t)
    requires s != [] && t != []
    ensures s[0] == t[0]
  {
    assert s[0] in Elements(t) && t[0] in Elements(s);
    if s[0] != t[0] {
      LessTransitive(rank, s[0], t[0], s[0]);
      LessIrreflexive(rank, s[0]);
    }
  }

  lemma TailElements<T>(rank: T -> int, s: seq<seq<T>>)
    requires Sorted(rank, s) && s != []
    ensures Elements(s[1..]) == Elements(s) - {s[0]}
  {
    forall k | k in s[1..]
      ensures k != s[0]
    {
      LessIrreflexive(rank, s[0]);
    }
  }

  /** Where a new key goes. */
  function Insert<T>(rank: T -> int, keys: seq<seq<T>>, k: seq<T>): seq<seq<T>> {
    if keys == [] || Less(rank, k, keys[0]) then [k] + keys
    else [keys[0]] + Insert(rank, keys[1..], k)
  }

  lemma {:induction false} InsertSorted<T(!new)>(rank: T -> int, keys: seq<seq<T>>, k: seq<T>)
    requires Injective(rank) && Sorted(rank, keys) && k !in Elements(keys)
    ensures Sorted(rank, Insert(rank, keys, k))
    ensures Elements(Insert(rank, keys, k)) == Elements(keys) + {k}
  {
    if keys == [] {
      assert Insert(rank, keys, k) == [k];
    } else if Less(rank, k, keys[0]) {
      assert forall x :: x in [k] + keys <==> x == k || x in keys;
      forall j | 0 < j < |keys|
        ensures Less(rank, k, keys[j])
      {
        LessTransitive(rank, k, keys[0], keys[j]);
      }
    } else {
      var tail := Insert(rank, keys[1..], k);
      assert k !in Elements(keys[1..]) by {
        assert forall x :: x in keys[1..] ==> x in keys;
      }
      InsertSorted(rank, keys[1..], k);
      assert k != keys[0] by { assert keys[0] in Elements(keys); }
      LessConnected(rank, k, keys[0]);
      assert forall x :: x in tail <==> x in Elements(tail);
      assert forall x :: x in keys[1..] <==> x in Elements(keys[1..]);
      assert keys == [keys[0]] + keys[1..];
      assert forall x :: x in keys <==> x == keys[0] || x in keys[1..];
      assert forall x :: x in [keys[0]] + tail <==> x == keys[0] || x in tail;
      assert forall x :: x in tail ==> Less(rank, keys[0], x);
    }
  }

  /** The sorted sequence of a set of keys, gathered in whatever order the set hands them out. */
  method Sort<T(==, !new)>(rank: T -> int, s: set<seq<T>>) returns (keys: seq<seq<T>>)
    requires Injective(rank)
    ensures Sorted(rank, keys) && Elements(keys) == s
  {
    keys := [];
    var rest := s;
    while rest != {}
      invariant rest <= s && Sorted(rank, keys) && Elements(keys) == s - rest
      decreases rest
    {
      var k :| k in rest;
      InsertSorted(rank, keys, k);
      keys := Insert(rank, keys, k);
      rest := rest - {k};
    }
  }

  /** The same sequence for specifications. */
  ghost function SortedKeys<T(!new)>(rank: T -> int, s: set<seq<T>>): (keys: seq<seq<T>>)
    requires Injective(rank)
    ensures Sorted(rank, keys) && Elements(keys) == s
  {
    SortedExists(rank, s);
    var keys :| Sorted(rank, keys) && Elements(keys) == s;
    keys
  }

  lemma {:induction false} SortedExists<T(!new)>(rank: T -> int, s: set<seq<T>>)
    requires Injective(rank)
    ensures exists keys :: Sorted(rank, keys) && Elements(keys) == s
  {
    if s == {} {
      var none: seq<seq<T>> := [];
      assert Sorted(rank, none) && Elements(none) == s;
    } else {
      var k :| k in s;
      SortedExists(rank, s - {k});
      var keys :| Sorted(rank, keys) && Elements(keys) == s - {k};
      InsertSorted(rank, keys, k);
      assert Elements(Insert(rank, keys, k)) == s;
    }
  }
}
