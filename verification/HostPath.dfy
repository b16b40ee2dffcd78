/**
 Following every symlink in a path: a worklist of components that grows whenever a link is met, held to a
 lookup that finishes one component before it goes on to the next.
 */
module HostPath {
  import opened Wrappers
  import opened Splitting

  /** A path is its components from the root; what is not a link is plain; a link that cannot be read has no target. */
  type Path = seq<string>

  datatype Kind = Missing | Plain | Link(target: Option<string>)

  type FileSystem = Path -> Kind

  const MAX_SYMLINK_HOPS := 40

  predicate Here(part: string) { part == "" || part == "." }

  predicate Absolute(target: string) { target != [] && target[0] == '/' }

  function Parent(dir: Path): Path {
    if dir == [] then [] else dir[..|dir| - 1]
  }

  /** path.Clean: dots are taken out of the text before anything is looked up. */
  function Clean(done: Path, parts: seq<string>): Path
    decreases |parts|
  {
    if parts == [] then done
    else if Here(parts[0]) then Clean(done, parts[1..])
    else if parts[0] == ".." then Clean(Parent(done), parts[1..])
    else Clean(done + [parts[0]], parts[1..])
  }

  /* The lookup. */

  datatype Found = Found(path: Path, left: nat)

  /** Follows the components of a path from a directory, with so many links left to follow. */
  function Lookup(fs: FileSystem, dir: Path, parts: seq<string>, left: nat): (r: Option<Found>)
    ensures r.Some? ==> r.value.left <= left
    decreases left, |parts|
  {
    if parts == [] then Some(Found(dir, left))
    else
      match Enter(fs, dir, parts[0], left)
      case None => None
      case Some(f) => Lookup(fs, f.path, parts[1..], f.left)
  }

  /** One component, to the end of whatever links it leads through. */
  function Enter(fs: FileSystem, dir: Path, part: string, left: nat): (r: Option<Found>)
    ensures r.Some? ==> r.value.left <= left
    decreases left, 0
  {
    if Here(part) then Some(Found(dir, left))
    else if part == ".." then Some(Found(Parent(dir), left))
    else
      match fs(dir + [part])
      case Missing => None
      case Plain => Some(Found(dir + [part], left))
      case Link(target) =>
        if left == 0 || target.None? then None
        else Lookup(fs, if Absolute(target.value) then [] else dir, Split(target.value, '/'), left - 1)
  }

  lemma {:induction false} LookupConcat(fs: FileSystem, dir: Path, a: seq<string>, b: seq<string>, left: nat)
    ensures Lookup(fs, dir, a + b, left) == match Lookup(fs, dir, a, left) {
        case None => None
        case Some(f) => Lookup(fs, f.path, b, f.left)
      }
    decreases left, |a|
  {
    hide Enter;
    if a == [] {
      assert a + b == b;
    } else {
      assert (a + b)[1..] == a[1..] + b;
      match Enter(fs, dir, a[0], left)
      case None =>
      case Some(f) => LookupConcat(fs, f.path, a[1..], b, f.left);
    }
  }

  /** A link is followed by putting its target in front of what is left of the path. */
  lemma LinkUnfolds(fs: FileSystem, dir: Path, part: string, target: string, rest: seq<string>, left: nat)
    requires !Here(part) && part != ".." && fs(dir + [part]) == Link(Some(target)) && left > 0
    ensures Lookup(fs, dir, [part] + rest, left) ==
            Lookup(fs, if Absolute(target) then [] else dir, Split(target, '/') + rest, left - 1)
  {
    LookupConcat(fs, if Absolute(target) then [] else dir, Split(target, '/'), rest, left - 1);
    hide Split;
    assert ([part] + rest)[1..] == rest;
  }

  /**
   What each component does to a walk, in the order the components come: nothing, one up, one down, or on to the
   target of a link, from where the link stands or from the root.  Nothing else ends a walk but a component that
   is missing, a link that cannot be read, and one link too many.
   */
  lemma WalkLaws(fs: FileSystem, dir: Path, part: string, rest: seq<string>, left: nat)
    ensures Lookup(fs, dir, [], left) == Some(Found(dir, left))
    ensures Lookup(fs, dir, [part] + rest, left) ==
            if part == "" || part == "." then Lookup(fs, dir, rest, left)
            else if part == ".." then Lookup(fs, if dir == [] then [] else dir[..|dir| - 1], rest, left)
            else match fs(dir + [part]) {
              case Missing => None
              case Plain => Lookup(fs, dir + [part], rest, left)
              case Link(None) => None
              case Link(Some(target)) =>
                if left == 0 then None
                else Lookup(fs, if target != "" && target[0] == '/' then [] else dir, Split(target, '/') + rest, left - 1)
            }
  {
    hide Split;
    assert ([part] + rest)[1..] == rest;
    if part != "" && part != "." && part != ".." && fs(dir + [part]).Link? && fs(dir + [part]).target.Some? && left > 0 {
      LinkUnfolds(fs, dir, part, fs(dir + [part]).target.value, rest, left);
    }
  }

  function Components(abs: string): Path {
    Clean([], Split(abs, '/'))
  }

  /** The path with every link in it followed; None when a component cannot be read or the links do not end. */
  function Resolved(fs: FileSystem, abs: string): Option<Path> {
    match Lookup(fs, [], Components(abs), MAX_SYMLINK_HOPS)
    case None => None
    case Some(f) => Some(f.path)
  }

  method ResolvePath(fs: FileSystem, abs: string) returns (r: Option<Path>)
    ensures r == Resolved(fs, abs)
    ensures r == match Lookup(fs, [], Clean([], Split(abs, '/')), 40) { case None => None case Some(f) => Some(f.path) }
  {
    hide Split, Clean;
    var rest := Components(abs);
    var resolved: Path := [];
    var hops := 0;
    while rest != []
      invariant 0 <= hops <= MAX_SYMLINK_HOPS
      invariant Lookup(fs, [], Components(abs), MAX_SYMLINK_HOPS) == Lookup(fs, resolved, rest, MAX_SYMLINK_HOPS - hops)
      decreases MAX_SYMLINK_HOPS - hops, |rest|
    {
      var part := rest[0];
      assert rest == [part] + rest[1..];
      rest := rest[1..];
      if Here(part) {
        continue;
      }
      if part == ".." {
        resolved := Parent(resolved);
        continue;
      }
      match fs(resolved + [part])
      case Missing => return None;
      case Plain => resolved := resolved + [part];
      case Link(target) =>
        if hops + 1 > MAX_SYMLINK_HOPS || target.None? {
          return None;
        }
        LinkUnfolds(fs, resolved, part, target.value, rest, MAX_SYMLINK_HOPS - hops);
        hops := hops + 1;
        if Absolute(target.value) {
          resolved := [];
        }
        rest := Split(target.value, '/') + rest;
    }
    r := Some(resolved);
  }

  /* What a resolved path is. */

  predicate Name(part: string) { !Here(part) && part != ".." && '/' !in part }

  /** Every prefix of the path is there and is no link. */
  ghost predicate Real(fs: FileSystem, path: Path) {
    forall k :: 0 < k <= |path| ==> fs(path[..k]) == Plain && Name(path[k - 1])
  }

  predicate Slashless(parts: seq<string>) {
    forall i :: 0 <= i < |parts| ==> '/' !in parts[i]
  }

  lemma RealParent(fs: FileSystem, dir: Path)
    requires Real(fs, dir)
    ensures Real(fs, Parent(dir))
  {
    hide Name;
    var up := Parent(dir);
    forall k | 0 < k <= |up|
      ensures fs(up[..k]) == Plain && Name(up[k - 1])
    {
      assert up[..k] == dir[..k] && up[k - 1] == dir[k - 1];
    }
  }

  lemma RealChild(fs: FileSystem, dir: Path, part: string)
    requires Real(fs, dir) && Name(part) && fs(dir + [part]) == Plain
    ensures Real(fs, dir + [part])
  {
    var path := dir + [part];
    forall k | 0 < k <= |path|
      ensures fs(path[..k]) == Plain && Name(path[k - 1])
    {
      if k <= |dir| {
        assert path[..k] == dir[..k];
      } else {
        assert path[..k] == path;
      }
    }
  }

  lemma {:induction false} LookupIsReal(fs: FileSystem, dir: Path, parts: seq<string>, left: nat)
    requires Real(fs, dir) && Slashless(parts) && Lookup(fs, dir, parts, left).Some?
    ensures Real(fs, Lookup(fs, dir, parts, left).value.path)
    decreases left, |parts|
  {
    hide Real;
    if parts != [] {
      EnterIsReal(fs, dir, parts[0], left);
      var f := Enter(fs, dir, parts[0], left).value;
      LookupIsReal(fs, f.path, parts[1..], f.left);
    }
  }

  lemma {:induction false} EnterIsReal(fs: FileSystem, dir: Path, part: string, left: nat)
    requires Real(fs, dir) && '/' !in part && Enter(fs, dir, part, left).Some?
    ensures Real(fs, Enter(fs, dir, part, left).value.path)
    decreases left, 0
  {
    hide Split;
    RealParent(fs, dir);
    if !Here(part) && part != ".." {
      match fs(dir + [part])
      case Missing =>
      case Plain => RealChild(fs, dir, part);
      case Link(target) =>
        SplitIsExact(target.value, '/');
        hide Real;
        RootIsReal(fs);
        LookupIsReal(fs, if Absolute(target.value) then [] else dir, Split(target.value, '/'), left - 1);
    }
  }

  lemma RootIsReal(fs: FileSystem)
    ensures Real(fs, [])
  {
  }

  /** A path without links resolves to itself. */
  lemma {:induction false} RealResolves(fs: FileSystem, path: Path, k: nat, left: nat)
    requires Real(fs, path) && k <= |path|
    ensures Lookup(fs, path[..k], path[k..], left) == Some(Found(path, left))
    decreases |path| - k
  {
    if k < |path| {
      assert path[..k] + [path[k]] == path[..k + 1];
      assert path[k..][1..] == path[k + 1..];
      RealResolves(fs, path, k + 1, left);
    } else {
      assert path[..k] == path;
    }
  }

  lemma {:induction false} CleanKeepsNames(done: Path, parts: seq<string>)
    requires forall i :: 0 <= i < |parts| ==> Name(parts[i])
    ensures Clean(done, parts) == done + parts
    decreases |parts|
  {
    if parts != [] {
      CleanKeepsNames(done + [parts[0]], parts[1..]);
      assert done + [parts[0]] + parts[1..] == done + parts;
    } else {
      assert done + parts == done;
    }
  }

  lemma {:induction false} CleanIsSlashless(done: Path, parts: seq<string>)
    requires Slashless(done) && Slashless(parts)
    ensures Slashless(Clean(done, parts))
    decreases |parts|
  {
    if parts != [] {
      CleanIsSlashless(if Here(parts[0]) then done else if parts[0] == ".." then Parent(done) else done + [parts[0]], parts[1..]);
    }
  }

  function PathText(path: Path): string {
    if path == [] then "/" else "/" + Join(path, '/')
  }

  lemma TextSplits(path: Path)
    requires path != [] && forall i :: 0 <= i < |path| ==> Name(path[i])
    ensures Split(PathText(path), '/') == [""] + path
  {
    hide Split, Join;
    JoinSplits(path, '/');
    SplitPart([], Join(path, '/'), '/');
    assert [] + ['/'] + Join(path, '/') == PathText(path);
  }

  lemma TextComponents(path: Path)
    requires forall i :: 0 <= i < |path| ==> Name(path[i])
    ensures Components(PathText(path)) == path
  {
    hide Split, Join;
    if path == [] {
      SplitPart([], [], '/');
      SplitNone([], '/');
      assert [] + ['/'] + [] == "/";
      assert Split("/", '/') == ["", ""];
      assert ["", ""][1..] == [""] && [""][1..] == [];
      assert Clean([], ["", ""]) == Clean([], [""]) == [];
    } else {
      TextSplits(path);
      assert ([""] + path)[1..] == path;
      CleanKeepsNames([], path);
      assert [] + path == path;
    }
  }

  /** No prefix of a resolved path is a link, and resolving its text again gives the same path. */
  lemma ResolvedIsReal(fs: FileSystem, abs: string)
    requires Resolved(fs, abs).Some?
    ensures Real(fs, Resolved(fs, abs).value)
    ensures Resolved(fs, PathText(Resolved(fs, abs).value)) == Resolved(fs, abs)
  {
    hide Split, Lookup, Clean;
    var path := Resolved(fs, abs).value;
    SplitIsExact(abs, '/');
    CleanIsSlashless([], Split(abs, '/'));
    RootIsReal(fs);
    LookupIsReal(fs, [], Components(abs), MAX_SYMLINK_HOPS);
    forall i | 0 <= i < |path|
      ensures Name(path[i])
    {
      RealNames(fs, path, i);
    }
    TextComponents(path);
    RealResolves(fs, path, 0, MAX_SYMLINK_HOPS);
    assert path[..0] == [] && path[0..] == path;
  }

  lemma RealNames(fs: FileSystem, path: Path, i: nat)
    requires Real(fs, path) && i < |path|
    ensures Name(path[i])
  {
    assert fs(path[..i + 1]) == Plain && Name(path[i + 1 - 1]);
  }

  /* The bound on links. */

  /** More links to follow never change an answer: the bound only refuses. */
  lemma {:induction false} MoreHopsAgree(fs: FileSystem, dir: Path, parts: seq<string>, left: nat, extra: nat)
    requires Lookup(fs, dir, parts, left).Some?
    ensures Lookup(fs, dir, parts, left + extra) ==
            Some(Found(Lookup(fs, dir, parts, left).value.path, Lookup(fs, dir, parts, left).value.left + extra))
    decreases left, |parts|
  {
    hide Split;
    if parts != [] {
      var part := parts[0];
      if !Here(part) && part != ".." && fs(dir + [part]).Link? {
        var target := fs(dir + [part]).target.value;
        MoreHopsAgree(fs, if Absolute(target) then [] else dir, Split(target, '/'), left - 1, extra);
      }
      var f := Enter(fs, dir, part, left).value;
      assert Enter(fs, dir, part, left + extra) == Some(Found(f.path, f.left + extra));
      MoreHopsAgree(fs, f.path, parts[1..], f.left, extra);
    }
  }

  /** A link to itself is refused however many links may be followed. */
  lemma {:induction false} LoopIsRefused(fs: FileSystem, dir: Path, name: string, left: nat)
    requires Name(name) && fs(dir + [name]) == Link(Some(name))
    ensures Enter(fs, dir, name, left).None?
    decreases left
  {
    if left > 0 {
      SplitNone(name, '/');
      assert !Absolute(name) by { assert name != [] ==> name[0] in name; }
      LoopIsRefused(fs, dir, name, left - 1);
      hide Split;
      assert [name][0] == name;
    }
  }

  /* Dots in the text. */

  /** Cleaning a path that never goes up changes nothing that is found. */
  lemma {:induction false} CleanIsHarmless(fs: FileSystem, dir: Path, done: Path, parts: seq<string>, left: nat)
    requires ".." !in parts
    ensures Lookup(fs, dir, Clean(done, parts), left) == Lookup(fs, dir, done + parts, left)
    decreases |parts|
  {
    hide Lookup;
    if parts == [] {
      assert done + parts == done;
    } else if Here(parts[0]) {
      CleanIsHarmless(fs, dir, done, parts[1..], left);
      assert done + parts == done + ([parts[0]] + parts[1..]);
      LookupConcat(fs, dir, done, parts[1..], left);
      LookupConcat(fs, dir, done, [parts[0]] + parts[1..], left);
      SkipHere(fs, dir, done, parts, left);
    } else {
      CleanIsHarmless(fs, dir, done + [parts[0]], parts[1..], left);
      assert done + [parts[0]] + parts[1..] == done + parts;
    }
  }

  lemma SkipHere(fs: FileSystem, dir: Path, done: Path, parts: seq<string>, left: nat)
    requires parts != [] && Here(parts[0])
    ensures forall f: Found :: Lookup(fs, f.path, [parts[0]] + parts[1..], f.left) == Lookup(fs, f.path, parts[1..], f.left)
  {
    forall f: Found
      ensures Lookup(fs, f.path, [parts[0]] + parts[1..], f.left) == Lookup(fs, f.path, parts[1..], f.left)
    {
      assert ([parts[0]] + parts[1..])[1..] == parts[1..];
    }
  }

  /** A component that names an entry of its directory. */
  predicate Names(part: string) { !Here(part) && part != ".." }

  /** Somewhere it goes up behind a component that names an entry. */
  ghost predicate GoesUp(parts: seq<string>) {
    exists i, j :: 0 <= i < j < |parts| && Names(parts[i]) && parts[j] == ".."
  }

  lemma GoesUpLater(parts: seq<string>)
    requires parts != []
    ensures GoesUp(parts[1..]) ==> GoesUp(parts)
    ensures Names(parts[0]) && ".." in parts ==> GoesUp(parts)
  {
    var rest := parts[1..];
    if GoesUp(rest) {
      var i, j :| 0 <= i < j < |rest| && Names(rest[i]) && rest[j] == "..";
      assert Names(parts[i + 1]) && parts[j + 1] == "..";
    }
    if Names(parts[0]) && ".." in parts {
      var j :| 0 <= j < |parts| && parts[j] == "..";
      assert j > 0;
    }
  }

  lemma GoesUpSooner(parts: seq<string>, n: nat)
    requires n <= |parts|
    ensures GoesUp(parts[..n]) ==> GoesUp(parts)
  {
    if GoesUp(parts[..n]) {
      var i, j :| 0 <= i < j < n && Names(parts[..n][i]) && parts[..n][j] == "..";
      assert Names(parts[i]) && parts[j] == "..";
    }
  }

  /** Dots before the first name only ever stay at the root. */
  lemma {:induction false} StayingDownIsHarmless(fs: FileSystem, parts: seq<string>, left: nat)
    requires !GoesUp(parts)
    ensures Lookup(fs, [], Clean([], parts), left) == Lookup(fs, [], parts, left)
    decreases |parts|
  {
    if parts != [] {
      GoesUpLater(parts);
      if Names(parts[0]) {
        CleanIsHarmless(fs, [], [], parts, left);
        assert [] + parts == parts;
      } else {
        StayingDownIsHarmless(fs, parts[1..], left);
      }
    }
  }

  /* A file system that tells the two apart. */

  /** Where it first goes up: the last name before that, nothing but dots for "here" between, and no going up earlier. */
  lemma {:induction false} FirstUp(parts: seq<string>) returns (i: nat, j: nat)
    requires GoesUp(parts)
    ensures i < j < |parts| && Names(parts[i]) && parts[j] == ".." && !GoesUp(parts[..i])
    ensures forall k :: i < k < j ==> Here(parts[k])
    decreases |parts|
  {
    var a, b :| 0 <= a < b < |parts| && Names(parts[a]) && parts[b] == "..";
    if GoesUp(parts[..b]) {
      i, j := FirstUp(parts[..b]);
      assert parts[..b][..i] == parts[..i];
      assert forall k :: 0 <= k < b ==> parts[..b][k] == parts[k];
    } else {
      forall k | a < k < b
        ensures parts[k] != ".."
      {
        assert parts[..b][a] == parts[a] && parts[..b][k] == parts[k];
      }
      i, j := b - 1, b;
      while !Names(parts[i])
        invariant a <= i < b
        invariant forall k :: i < k < b ==> Here(parts[k])
        decreases i
      {
        assert i != a;
        i := i - 1;
      }
      GoesUpSooner(parts[..b], i);
      assert parts[..b][..i] == parts[..i];
    }
  }

  /** Plain but for one directory, which is a link. */
  function OneLink(dir: Path, target: string): FileSystem {
    (path: Path) => if path == dir then Link(Some(target)) else Plain
  }

  /** A name none of the components is. */
  function Fresh(parts: seq<string>): (z: string)
    ensures z != [] && forall i :: 0 <= i < |z| ==> z[i] == 'z'
    ensures forall i :: 0 <= i < |parts| ==> |parts[i]| < |z|
  {
    if parts == [] then "z"
    else
      var more := Fresh(parts[1..]);
      var n := if |parts[0]| < |more| then |more| else |parts[0]| + 1;
      assert forall i :: 0 < i < |parts| ==> |parts[i]| == |parts[1..][i - 1]| < |more|;
      seq(n, i => 'z')
  }

  /** Where component k leads. */
  function Ahead(dir: Path, names: seq<string>, k: nat): Path
    requires k < |names|
  {
    dir + names[..k + 1]
  }

  /** From here these components name entries that are all plain. */
  ghost predicate AllPlain(fs: FileSystem, dir: Path, names: seq<string>) {
    forall k :: 0 <= k < |names| ==> Names(names[k]) && fs(Ahead(dir, names, k)) == Plain
  }

  lemma AllPlainNext(fs: FileSystem, dir: Path, names: seq<string>)
    requires AllPlain(fs, dir, names) && names != []
    ensures Names(names[0]) && fs(dir + [names[0]]) == Plain && AllPlain(fs, dir + [names[0]], names[1..])
  {
    var next, rest := dir + [names[0]], names[1..];
    assert Ahead(dir, names, 0) == next;
    forall k | 0 <= k < |rest|
      ensures Names(rest[k]) && fs(Ahead(next, rest, k)) == Plain
    {
      assert rest[k] == names[k + 1];
      assert Ahead(next, rest, k) == Ahead(dir, names, k + 1);
    }
  }

  lemma {:induction false} PlainResolves(fs: FileSystem, dir: Path, names: seq<string>, left: nat)
    requires AllPlain(fs, dir, names)
    ensures Lookup(fs, dir, names, left) == Some(Found(dir + names, left))
    decreases |names|
  {
    hide AllPlain;
    if names == [] {
      assert dir + names == dir;
    } else {
      AllPlainNext(fs, dir, names);
      PlainResolves(fs, dir + [names[0]], names[1..], left);
      assert dir + [names[0]] + names[1..] == dir + names;
    }
  }

  lemma PlainBelow(before: Path, name: string, target: string)
    requires forall k :: 0 <= k < |before| ==> Names(before[k])
    ensures AllPlain(OneLink(before + [name], target), [], before)
  {
    assert forall k :: 0 <= k < |before| ==> |Ahead([], before, k)| < |before + [name]|;
  }

  lemma PlainDeep(dir: Path, target: string, deep: Path, rest: seq<string>)
    requires dir != [] && deep != [] && dir[0] != deep[0] && forall k :: 0 <= k < |rest| ==> Names(rest[k])
    ensures AllPlain(OneLink(dir, target), deep, rest)
  {
    assert forall k :: 0 <= k < |rest| ==> Ahead(deep, rest, k)[0] == deep[0];
  }

  lemma PlainAside(dir: Path, target: string, names: seq<string>)
    requires !(dir <= names) && forall k :: 0 <= k < |names| ==> Names(names[k])
    ensures AllPlain(OneLink(dir, target), [], names)
  {
    assert forall k :: 0 <= k < |names| ==> Ahead([], names, k) <= names;
  }

  lemma PlainFresh(dir: Path, target: string, z: string, depth: nat)
    requires dir != [] && dir[0] != z && Names(z)
    ensures AllPlain(OneLink(dir, target), [], seq(depth, i => z))
  {
    var deep := seq(depth, i => z);
    assert forall k :: 0 <= k < depth ==> Ahead([], deep, k)[0] == z;
  }

  /** In a deep directory of fresh names, components neither leave it nor bring back a name that was left. */
  lemma {:induction false} StaysDeep(fs: FileSystem, dir: Path, parts: seq<string>, left: nat, z: string, depth: nat)
    requires |dir| > |parts| && dir[0] == z && depth > 0 && (|dir| < depth || dir[depth - 1] != z)
    requires (forall i :: 0 <= i < |parts| ==> parts[i] != z) && forall p: Path :: p != [] && p[0] == z ==> fs(p) == Plain
    ensures var r := Lookup(fs, dir, parts, left);
            r.Some? && r.value.path != [] && r.value.path[0] == z &&
            (|r.value.path| < depth || r.value.path[depth - 1] != z)
    decreases |parts|
  {
    if parts != [] {
      var part := parts[0];
      var next := if Here(part) then dir else if part == ".." then Parent(dir) else dir + [part];
      assert Enter(fs, dir, part, left) == Some(Found(next, left));
      StaysDeep(fs, next, parts[1..], left, z, depth);
    }
  }

  lemma {:induction false} HereStays(fs: FileSystem, dir: Path, parts: seq<string>, left: nat)
    requires forall i :: 0 <= i < |parts| ==> Here(parts[i])
    ensures Lookup(fs, dir, parts, left) == Some(Found(dir, left))
    decreases |parts|
  {
    if parts != [] {
      HereStays(fs, dir, parts[1..], left);
    }
  }

  lemma {:induction false} CleanHasNames(done: Path, parts: seq<string>)
    requires forall i :: 0 <= i < |done| ==> Names(done[i])
    ensures forall i :: 0 <= i < |Clean(done, parts)| ==>
      Names(Clean(done, parts)[i]) && (Clean(done, parts)[i] in done || Clean(done, parts)[i] in parts)
    decreases |parts|
  {
    if parts != [] {
      var next := if Here(parts[0]) then done else if parts[0] == ".." then Parent(done) else done + [parts[0]];
      CleanHasNames(next, parts[1..]);
      assert forall x :: x in next ==> x in done || x in parts;
    }
  }

  /** Following the link leads to its target. */
  lemma LinkLeads(dir: Path, name: string, z: string, depth: nat, left: nat)
    requires Names(name) && Name(z) && depth > 0 && left > 0 && (dir + [name])[0] != z
    ensures var deep := seq(depth, i => z);
            Lookup(OneLink(dir + [name], PathText(deep)), dir, [name], left) == Some(Found(deep, left - 1))
  {
    var deep := seq(depth, i => z);
    var fs := OneLink(dir + [name], PathText(deep));
    TextSplits(deep);
    PlainFresh(dir + [name], PathText(deep), z, depth);
    hide AllPlain;
    PlainResolves(fs, [], deep, left - 1);
    assert [] + deep == deep;
    assert ([""] + deep)[1..] == deep;
    assert Absolute(PathText(deep));
    hide Split;
    assert Lookup(fs, [], [""] + deep, left - 1) == Lookup(fs, [], deep, left - 1);
    assert [name][1..] == [];
  }

  /** Out of the target of the link and on from there. */
  lemma OutOfLink(fs: FileSystem, mid: seq<string>, rest: seq<string>, z: string, depth: nat, left: nat)
    requires depth > |rest| + 1 && (forall k :: 0 <= k < |mid| ==> Here(mid[k]))
    requires (forall k :: 0 <= k < |rest| ==> rest[k] != z) && forall p: Path :: p != [] && p[0] == z ==> fs(p) == Plain
    ensures var r := Lookup(fs, seq(depth, i => z), mid + ([".."] + rest), left);
            r.Some? && r.value.path != [] && r.value.path[0] == z &&
            (|r.value.path| < depth || r.value.path[depth - 1] != z)
  {
    hide Lookup;
    var deep := seq(depth, i => z);
    LookupConcat(fs, deep, mid, [".."] + rest, left);
    HereStays(fs, deep, mid, left);
    LookupConcat(fs, deep, [".."], rest, left);
    UpOnce(fs, deep, left);
    StaysDeep(fs, Parent(deep), rest, left, z, depth);
  }

  /** Into the link, out of its target, and on from there. */
  lemma AroundLink(fs: FileSystem, head: seq<string>, before: Path, name: string, mid: seq<string>, rest: seq<string>,
                   z: string, depth: nat, left: nat)
    requires left > 0 && Lookup(fs, [], head, left) == Some(Found(before, left))
    requires Lookup(fs, before, [name], left) == Some(Found(seq(depth, i => z), left - 1))
    requires depth > |rest| + 1 && (forall k :: 0 <= k < |mid| ==> Here(mid[k]))
    requires (forall k :: 0 <= k < |rest| ==> rest[k] != z) && forall p: Path :: p != [] && p[0] == z ==> fs(p) == Plain
    ensures var r := Lookup(fs, [], head + ([name] + (mid + ([".."] + rest))), left);
            r.Some? && r.value.path != [] && r.value.path[0] == z &&
            (|r.value.path| < depth || r.value.path[depth - 1] != z)
  {
    hide Lookup;
    var behind := mid + ([".."] + rest);
    LookupConcat(fs, [], head, [name] + behind, left);
    LookupConcat(fs, before, [name], behind, left);
    OutOfLink(fs, mid, rest, z, depth, left - 1);
  }

  lemma Parted(parts: seq<string>, i: nat, j: nat, z: string)
    requires i < j < |parts| && parts[j] == ".." && (forall k :: i < k < j ==> Here(parts[k]))
    requires forall k :: 0 <= k < |parts| ==> parts[k] != z
    ensures var mid, rest := parts[i + 1..j], parts[j + 1..];
            parts == parts[..i] + ([parts[i]] + (mid + ([".."] + rest))) &&
            (forall k :: 0 <= k < |mid| ==> Here(mid[k])) && forall k :: 0 <= k < |rest| ==> rest[k] != z
  {
  }

  /** The lookup of the components as they stand. */
  lemma UncleanedPath(parts: seq<string>, i: nat, j: nat, z: string, left: nat)
    requires i < j < |parts| && Names(parts[i]) && parts[j] == ".." && !GoesUp(parts[..i]) && left > 0
    requires (forall k :: i < k < j ==> Here(parts[k])) && Name(z) && forall k :: 0 <= k < |parts| ==> parts[k] != z
    ensures var depth := |parts| + 2;
            var dir := Clean([], parts[..i]) + [parts[i]];
            var fs := OneLink(dir, PathText(seq(depth, i => z)));
            var r := Lookup(fs, [], parts, left);
            r.Some? && r.value.path != [] && r.value.path[0] == z &&
            (|r.value.path| < depth || r.value.path[depth - 1] != z)
  {
    hide Lookup, OneLink, PathText, Clean, Here;
    var depth := |parts| + 2;
    var before := Clean([], parts[..i]);
    var dir := before + [parts[i]];
    var target := PathText(seq(depth, i => z));
    BeforeLink(parts, i, z, left);
    PlainAt(dir, target, z);
    LinkLeads(before, parts[i], z, depth, left);
    hide *;
    var mid, rest := parts[i + 1..j], parts[j + 1..];
    Parted(parts, i, j, z);
    AroundLink(OneLink(dir, target), parts[..i], before, parts[i], mid, rest, z, depth, left);
  }

  lemma UpOnce(fs: FileSystem, dir: Path, left: nat)
    ensures Lookup(fs, dir, [".."], left) == Some(Found(Parent(dir), left))
  {
    assert [".."][1..] == [];
  }

  lemma PlainAt(dir: Path, target: string, z: string)
    requires dir != [] && dir[0] != z
    ensures forall p: Path :: p != [] && p[0] == z ==> OneLink(dir, target)(p) == Plain
  {
  }

  /** Up to the link everything is plain. */
  lemma BeforeLink(parts: seq<string>, i: nat, z: string, left: nat)
    requires i < |parts| && !GoesUp(parts[..i]) && forall k :: 0 <= k < |parts| ==> parts[k] != z
    ensures var before := Clean([], parts[..i]);
            (forall target :: Lookup(OneLink(before + [parts[i]], target), [], parts[..i], left) == Some(Found(before, left))) &&
            (before + [parts[i]])[0] != z
  {
    var before := Clean([], parts[..i]);
    CleanHasNames([], parts[..i]);
    forall target
      ensures Lookup(OneLink(before + [parts[i]], target), [], parts[..i], left) == Some(Found(before, left))
    {
      var fs := OneLink(before + [parts[i]], target);
      PlainBelow(before, parts[i], target);
      StayingDownIsHarmless(fs, parts[..i], left);
      PlainResolves(fs, [], before, left);
      assert [] + before == before;
    }
    if before != [] {
      assert before[0] in parts[..i];
    }
  }

  /** A cleaned path that leads through the link. */
  lemma ThroughLink(before: Path, name: string, rest: seq<string>, z: string, depth: nat, left: nat)
    requires Names(name) && Name(z) && depth > 0 && left > 0 && (before + [name])[0] != z
    requires (forall k :: 0 <= k < |before| ==> Names(before[k])) && forall k :: 0 <= k < |rest| ==> Names(rest[k])
    ensures var deep := seq(depth, i => z);
            Lookup(OneLink(before + [name], PathText(deep)), [], before + [name] + rest, left) == Some(Found(deep + rest, left - 1))
  {
    hide Lookup, OneLink, PathText, AllPlain;
    var deep := seq(depth, i => z);
    var target := PathText(deep);
    var fs := OneLink(before + [name], target);
    PlainBelow(before, name, target);
    PlainResolves(fs, [], before, left);
    assert [] + before == before;
    LinkLeads(before, name, z, depth, left);
    PlainDeep(before + [name], target, deep, rest);
    PlainResolves(fs, deep, rest, left - 1);
    assert before + [name] + rest == before + ([name] + rest);
    LookupConcat(fs, [], before, [name] + rest, left);
    LookupConcat(fs, before, [name], rest, left);
  }

  /** One that does not. */
  lemma PastLink(dir: Path, target: string, cleaned: Path, left: nat)
    requires !(dir <= cleaned) && forall k :: 0 <= k < |cleaned| ==> Names(cleaned[k])
    ensures Lookup(OneLink(dir, target), [], cleaned, left) == Some(Found(cleaned, left))
  {
    hide Lookup, OneLink, AllPlain;
    PlainAside(dir, target, cleaned);
    PlainResolves(OneLink(dir, target), [], cleaned, left);
    assert [] + cleaned == cleaned;
  }

  /** The lookup of the cleaned path: past the link, or through it and on. */
  lemma CleanedPath(parts: seq<string>, i: nat, z: string, left: nat)
    requires i < |parts| && Names(parts[i]) && !GoesUp(parts[..i]) && left > 0
    requires Name(z) && forall k :: 0 <= k < |parts| ==> parts[k] != z
    ensures var depth := |parts| + 2;
            var dir := Clean([], parts[..i]) + [parts[i]];
            var fs := OneLink(dir, PathText(seq(depth, i => z)));
            var r := Lookup(fs, [], Clean([], parts), left);
            r.Some? && (r.value.path == [] || r.value.path[0] != z ||
                        (|r.value.path| >= depth && r.value.path[depth - 1] == z))
  {
    var depth := |parts| + 2;
    var before, cleaned := Clean([], parts[..i]), Clean([], parts);
    var dir := before + [parts[i]];
    CleanHasNames([], parts);
    CleanHasNames([], parts[..i]);
    BeforeLink(parts, i, z, left);
    hide Lookup, OneLink, PathText, Clean;
    if dir <= cleaned {
      var rest := cleaned[|dir|..];
      assert cleaned == dir + rest;
      ThroughLink(before, parts[i], rest, z, depth, left);
    } else {
      PastLink(dir, PathText(seq(depth, i => z)), cleaned, left);
      assert cleaned != [] ==> cleaned[0] in parts;
    }
  }

  /** Whatever path goes up behind a name, there is a file system in which cleaning it first leads elsewhere. */
  lemma GoingUpDiffers(parts: seq<string>, left: nat) returns (fs: FileSystem)
    requires GoesUp(parts) && left > 0
    ensures Lookup(fs, [], parts, left).Some? && Lookup(fs, [], Clean([], parts), left).Some?
    ensures Lookup(fs, [], parts, left).value.path != Lookup(fs, [], Clean([], parts), left).value.path
  {
    var i, j := FirstUp(parts);
    var z := Fresh(parts);
    assert Name(z) by {
      assert z[0] == 'z';
      assert z != "." && z != "..";
    }
    assert forall k :: 0 <= k < |parts| ==> parts[k] != z;
    hide Fresh, Lookup, Clean, PathText;
    UncleanedPath(parts, i, j, z, left);
    CleanedPath(parts, i, z, left);
    fs := OneLink(Clean([], parts[..i]) + [parts[i]], PathText(seq(|parts| + 2, i => z)));
  }

  /**
   Exactly which paths may be cleaned before they are looked up, whatever the file system holds: those that
   never go up behind a component that names an entry.
   */
  lemma CleanIsHarmlessExactly(parts: seq<string>, left: nat)
    requires left > 0
    ensures (forall fs: FileSystem :: Lookup(fs, [], Clean([], parts), left) == Lookup(fs, [], parts, left)) <==> !GoesUp(parts)
  {
    hide Lookup, Clean;
    if GoesUp(parts) {
      var fs := GoingUpDiffers(parts, left);
      assert Lookup(fs, [], Clean([], parts), left) != Lookup(fs, [], parts, left);
    } else {
      forall fs: FileSystem
        ensures Lookup(fs, [], Clean([], parts), left) == Lookup(fs, [], parts, left)
      {
        StayingDownIsHarmless(fs, parts, left);
      }
    }
  }

  /** The path with every link of the text as it stands followed. */
  function Followed(fs: FileSystem, abs: string): Option<Path> {
    match Lookup(fs, [], Split(abs, '/'), MAX_SYMLINK_HOPS)
    case None => None
    case Some(f) => Some(f.path)
  }

  /** Resolving follows every link of a text, on every file system, exactly when the text never goes up behind a name. */
  lemma ResolvedIsFollowedExactly(abs: string)
    ensures (forall fs: FileSystem :: Resolved(fs, abs) == Followed(fs, abs)) <==> !GoesUp(Split(abs, '/'))
  {
    hide Lookup, Clean, Split;
    var parts := Split(abs, '/');
    if GoesUp(parts) {
      var fs := GoingUpDiffers(parts, MAX_SYMLINK_HOPS);
      assert Resolved(fs, abs) != Followed(fs, abs);
    } else {
      forall fs: FileSystem
        ensures Resolved(fs, abs) == Followed(fs, abs)
      {
        StayingDownIsHarmless(fs, parts, MAX_SYMLINK_HOPS);
      }
    }
  }

  /* One such path. */

  /** Where it goes up out of a link, cleaning first gives another directory than following the link would. */
  lemma CleanLosesTheLink(fs: FileSystem, left: nat)
    requires fs(["a"]) == Link(Some("/b/c")) && fs(["b"]) == Plain && fs(["b", "c"]) == Plain && left > 0
    ensures Resolved(fs, "/a/..") == Some([])
    ensures Lookup(fs, [], ["", "a", ".."], left) == Some(Found(["b"], left - 1))
  {
    SplitText();
    hide Split;
    DotsGoUp();
    var rest := ["b", "c", ".."];
    assert ["", "a", ".."][1..] == ["a"] + [".."];
    LinkUnfolds(fs, [], "a", "/b/c", [".."], left);
    assert [] + ["a"] == ["a"] && [] + ["b"] == ["b"] && ["b"] + ["c"] == ["b", "c"];
    assert Split("/b/c", '/') + [".."] == [""] + rest;
    assert ([""] + rest)[1..] == rest && rest[1..] == ["c", ".."] && ["c", ".."][1..] == [".."] && [".."][1..] == [];
    hide Clean;
    assert Lookup(fs, ["b"], [], left - 1) == Some(Found(["b"], left - 1));
    assert Parent(["b", "c"]) == ["b"];
    assert Lookup(fs, ["b", "c"], [".."], left - 1) == Some(Found(["b"], left - 1));
    assert Lookup(fs, ["b"], ["c", ".."], left - 1) == Some(Found(["b"], left - 1));
    assert Lookup(fs, [], rest, left - 1) == Some(Found(["b"], left - 1));
    assert Lookup(fs, [], [""] + rest, left - 1) == Some(Found(["b"], left - 1));
  }

  lemma DotsGoUp()
    ensures Clean([], ["", "a", ".."]) == []
  {
    assert ["", "a", ".."][1..] == ["a", ".."] && ["a", ".."][1..] == [".."] && [".."][1..] == [];
    assert [] + ["a"] == ["a"] && Parent(["a"]) == [];
    assert Clean(["a"], [".."]) == Clean([], []) == [];
    assert Clean([], ["a", ".."]) == Clean(["a"], [".."]);
  }

  lemma SplitText()
    ensures Split("/a/..", '/') == ["", "a", ".."] && Split("/b/c", '/') == ["", "b", "c"]
  {
    assert "/a/.." == [] + ['/'] + ("a" + ['/'] + "..") && "/b/c" == [] + ['/'] + ("b" + ['/'] + "c");
    SplitPart([], "a" + ['/'] + "..", '/');
    SplitPart("a", "..", '/');
    SplitNone("..", '/');
    SplitPart([], "b" + ['/'] + "c", '/');
    SplitPart("b", "c", '/');
    SplitNone("c", '/');
  }
}
