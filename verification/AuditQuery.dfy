/**
 The read path: one page of the archive at a time, newest first, by a cursor that is a sequence number.
 */
module AuditQuery {
  import opened Wrappers
  import opened AuditRecord
  import opened AuditChain
  import opened AuditArchive
  import opened AuditRuns
  import opened AuditLogger

  const DEFAULT_LIMIT := 100
  const MAX_LIMIT := 1000
  const DAY_NANOS := 86_400_000_000_000

  /** The instant a time stamp stands for, in nanoseconds since 1970. */
  type Clock = string -> nat

  /** The UTC day of an instant. */
  function DayOfInstant(t: int): (d: int)
    ensures 86_400_000_000_000 * d <= t < 86_400_000_000_000 * (d + 1)
  {
    t / DAY_NANOS
  }

  function DayOfStamp(at: Clock): string -> nat {
    (ts: string) => at(ts) / DAY_NANOS
  }

  /** An absent bound is None, an empty action and a cursor of 0 ask for everything. */
  datatype Filter = Filter(from: Option<int>, to: Option<int>, action: string, limit: int, cursor: nat)

  datatype Page = Page(items: seq<Record>, nextCursor: Option<nat>)

  function EffectiveLimit(n: int): (r: nat)
    ensures 1 <= r <= 1000 && (1 <= n <= 1000 ==> r == n)
    ensures (n <= 0 ==> r == 100) && (n > 1000 ==> r == 1000)
  {
    if n <= 0 then DEFAULT_LIMIT else if n > MAX_LIMIT then MAX_LIMIT else n
  }

  predicate Matches(at: Clock, r: Record, f: Filter) {
    (f.cursor != 0 ==> r.seqNo < f.cursor) &&
    (f.from.Some? ==> at(r.ts) >= f.from.value) &&
    (f.to.Some? ==> at(r.ts) <= f.to.value) &&
    (f.action != [] ==> r.action == f.action)
  }

  /** The matching records, newest first. */
  function Select(at: Clock, log: seq<Record>, f: Filter): seq<Record> {
    if log == [] then []
    else
      var last := log[|log| - 1];
      (if Matches(at, last, f) then [last] else []) + Select(at, log[..|log| - 1], f)
  }

  /** The page a filter asks for. */
  function PageOf(at: Clock, log: seq<Record>, f: Filter): Page {
    var all, limit := Select(at, log, f), EffectiveLimit(f.limit);
    if |all| <= limit then Page(all, None) else Page(all[..limit], Some(all[limit - 1].seqNo))
  }

  lemma {:induction false} SelectConcat(at: Clock, a: seq<Record>, b: seq<Record>, f: Filter)
    ensures Select(at, a + b, f) == Select(at, b, f) + Select(at, a, f)
  {
    hide Matches;
    if b == [] {
      assert a + b == a;
    } else {
      assert (a + b)[..|a + b| - 1] == a + b[..|b| - 1];
      SelectConcat(at, a, b[..|b| - 1], f);
    }
  }

  lemma {:induction false} SelectNone(at: Clock, recs: seq<Record>, f: Filter)
    requires forall r :: r in recs ==> !Matches(at, r, f)
    ensures Select(at, recs, f) == []
  {
    hide Matches;
    if recs != [] {
      assert recs[|recs| - 1] in recs;
      SelectNone(at, recs[..|recs| - 1], f);
    }
  }

  /* What a page is, said of the records themselves. */

  /** Below the cursor if there is one, between the bounds with both of them, and of the action if one is asked for. */
  predicate Asked(at: Clock, r: Record, f: Filter) {
    && (f.cursor == 0 || r.seqNo < f.cursor)
    && (match f.from { case None => true case Some(from) => from <= at(r.ts) })
    && (match f.to { case None => true case Some(to) => at(r.ts) <= to })
    && (f.action == "" || f.action == r.action)
  }

  /**
   A page of a log, by the places its records have there: the newest that are asked for, newest first and as many
   as the limit; a cursor exactly if there are more, which is the number of the last one on the page.
   */
  ghost predicate IsPage(at: Clock, log: seq<Record>, f: Filter, page: Page, places: seq<int>) {
    && |places| == |page.items| <= EffectiveLimit(f.limit)
    && (forall j, k :: 0 <= j < k < |places| ==> places[k] < places[j])
    && (forall k :: 0 <= k < |places| ==> 0 <= places[k] < |log| && page.items[k] == log[places[k]] && Asked(at, page.items[k], f))
    && (forall i :: 0 <= i < |log| && Asked(at, log[i], f) && i !in places ==> page.nextCursor.Some? && OlderThanAll(i, places))
    && match page.nextCursor {
         case None => true
         case Some(cursor) =>
           && |page.items| == EffectiveLimit(f.limit) && cursor == page.items[|page.items| - 1].seqNo
           && exists i :: 0 <= i < |log| && Asked(at, log[i], f) && i !in places
       }
  }

  predicate OlderThanAll(i: int, places: seq<int>) {
    forall k :: 0 <= k < |places| ==> i < places[k]
  }

  lemma MatchesAsked(at: Clock, r: Record, f: Filter)
    ensures Matches(at, r, f) <==> Asked(at, r, f)
  {
  }

  /** All the places of records asked for, newest first. */
  ghost predicate AllPlaces(at: Clock, log: seq<Record>, f: Filter, places: seq<int>) {
    && (forall j, k :: 0 <= j < k < |places| ==> places[k] < places[j])
    && forall i :: i in places <==> 0 <= i < |log| && Asked(at, log[i], f)
  }

  function At(log: seq<Record>, places: seq<int>): (recs: seq<Record>)
    requires forall i :: i in places ==> 0 <= i < |log|
    ensures |recs| == |places| && forall k :: 0 <= k < |places| ==> places[k] in places && recs[k] == log[places[k]]
  {
    seq(|places|, k requires 0 <= k < |places| => assert places[k] in places; log[places[k]])
  }

  lemma {:induction false} SelectPlaces(at: Clock, log: seq<Record>, f: Filter) returns (places: seq<int>)
    ensures AllPlaces(at, log, f, places) && Select(at, log, f) == At(log, places)
  {
    hide Matches, Asked, Select;
    SelectSteps(at, log, f);
    places := [];
    if log != [] {
      var n := |log| - 1;
      places := SelectPlaces(at, log[..n], f);
      MatchesAsked(at, log[n], f);
      if Matches(at, log[n], f) {
        OneMorePlace(at, log, f, places);
        places := [n] + places;
      } else {
        SamePlaces(at, log, f, places);
        assert [] + Select(at, log[..n], f) == Select(at, log[..n], f);
      }
    }
  }

  lemma OneMorePlace(at: Clock, log: seq<Record>, f: Filter, places: seq<int>)
    requires log != [] && AllPlaces(at, log[..|log| - 1], f, places) && Asked(at, log[|log| - 1], f)
    ensures AllPlaces(at, log, f, [|log| - 1] + places)
    ensures At(log, [|log| - 1] + places) == [log[|log| - 1]] + At(log[..|log| - 1], places)
  {
    hide Asked;
    var n := |log| - 1;
    var more := [n] + places;
    forall i
      ensures i in more <==> 0 <= i < |log| && Asked(at, log[i], f)
    {
      assert i in more <==> i == n || i in places;
      assert 0 <= i < n ==> log[..n][i] == log[i];
    }
    assert forall k :: 0 <= k < |places| ==> places[k] in places;
  }

  lemma SamePlaces(at: Clock, log: seq<Record>, f: Filter, places: seq<int>)
    requires log != [] && AllPlaces(at, log[..|log| - 1], f, places) && !Asked(at, log[|log| - 1], f)
    ensures AllPlaces(at, log, f, places)
    ensures At(log, places) == At(log[..|log| - 1], places)
  {
    hide Asked;
    var n := |log| - 1;
    forall i
      ensures i in places <==> 0 <= i < |log| && Asked(at, log[i], f)
    {
      assert 0 <= i < n ==> log[..n][i] == log[i];
    }
  }

  /** What the places on a page leave over is older than all of it. */
  lemma FirstPlaces(all: seq<int>, n: nat, i: int)
    requires n <= |all| && (forall j, k :: 0 <= j < k < |all| ==> all[k] < all[j]) && i in all && i !in all[..n]
    ensures OlderThanAll(i, all[..n]) && n < |all|
  {
    assert forall j :: 0 <= j < n ==> all[j] == all[..n][j] && all[..n][j] in all[..n];
    var k :| 0 <= k < |all| && all[k] == i;
    assert k >= n;
  }

  lemma PageIs(at: Clock, log: seq<Record>, f: Filter) returns (places: seq<int>)
    ensures IsPage(at, log, f, PageOf(at, log, f), places)
  {
    hide Select, Asked, OlderThanAll;
    var limit := EffectiveLimit(f.limit);
    var all := SelectPlaces(at, log, f);
    var n := if |all| <= limit then |all| else limit;
    places := all[..n];
    assert n == |all| ==> all[..n] == all;
    forall i | i in all && i !in places
      ensures OlderThanAll(i, places) && |all| > limit
    {
      FirstPlaces(all, n, i);
    }
    forall k | 0 <= k < n
      ensures places[k] in all
    {
      assert all[k] in all;
    }
    if |all| > limit {
      assert all[limit] in all;
      assert all[limit] !in places;
    }
  }

  lemma SelectLast(at: Clock, recs: seq<Record>, j: nat, f: Filter)
    requires j < |recs|
    ensures Select(at, recs[..j + 1], f) ==
            (if Matches(at, recs[j], f) then [recs[j]] else []) + Select(at, recs[..j], f)
  {
    hide Matches;
    assert recs[..j + 1][..j] == recs[..j];
  }

  /* Day files that cannot matter. */

  predicate InWindow(day: nat, f: Filter) {
    (f.from.Some? ==> day >= DayOfInstant(f.from.value)) && (f.to.Some? ==> day <= DayOfInstant(f.to.value))
  }

  function Kept(files: seq<FileName>, f: Filter): seq<FileName> {
    if files == [] then []
    else Kept(files[..|files| - 1], f) +
         if InWindow(files[|files| - 1].day, f) then [files[|files| - 1]] else []
  }

  /** Drops the day files that lie outside the window. */
  method WithinWindow(files: seq<FileName>, f: Filter) returns (out: seq<FileName>)
    ensures out == Kept(files, f)
  {
    if f.from.None? && f.to.None? {
      KeptAll(files, f);
      return files;
    }
    out := [];
    for i := 0 to |files|
      invariant out == Kept(files[..i], f)
    {
      assert files[..i + 1][..i] == files[..i];
      if f.from.Some? && files[i].day < DayOfInstant(f.from.value) {
        continue;
      }
      if f.to.Some? && files[i].day > DayOfInstant(f.to.value) {
        continue;
      }
      out := out + [files[i]];
    }
    assert files[..|files|] == files;
  }

  lemma {:induction false} KeptAll(files: seq<FileName>, f: Filter)
    requires f.from.None? && f.to.None?
    ensures Kept(files, f) == files
  {
    if files != [] {
      KeptAll(files[..|files| - 1], f);
    }
  }

  lemma FileOutside(at: Clock, recs: seq<Record>, day: nat, f: Filter)
    requires !InWindow(day, f) && forall r :: r in recs ==> DayOfStamp(at)(r.ts) == day
    ensures Select(at, recs, f) == []
  {
    forall r | r in recs
      ensures !Matches(at, r, f)
    {
      if f.from.Some? && day < DayOfInstant(f.from.value) {
        LaterDay(at(r.ts), f.from.value);
      } else {
        LaterDay(f.to.value, at(r.ts));
      }
    }
    SelectNone(at, recs, f);
  }

  lemma LaterDay(a: int, b: int)
    requires DayOfInstant(a) < DayOfInstant(b)
    ensures a < b
  {
  }

  /** Leaving those files out loses no match. */
  lemma {:induction false} PruningIsExact(at: Clock, disk: seq<Slot>, files: seq<FileName>, f: Filter)
    requires forall file :: file in files ==>
      forall r :: r in ReadFile(disk, file) ==> DayOfStamp(at)(r.ts) == file.day
    ensures Select(at, ReadFiles(disk, Kept(files, f)), f) == Select(at, ReadFiles(disk, files), f)
  {
    hide ReadFile, Select, Matches, InWindow, ReadFiles;
    if files == [] {
    } else {
      var init, last := files[..|files| - 1], files[|files| - 1];
      assert files == init + [last] && last in files;
      PruningIsExact(at, disk, init, f);
      ReadsOneMore(disk, init, last);
      SelectConcat(at, ReadFiles(disk, init), ReadFile(disk, last), f);
      if InWindow(last.day, f) {
        ReadsOneMore(disk, Kept(init, f), last);
        SelectConcat(at, ReadFiles(disk, Kept(init, f)), ReadFile(disk, last), f);
      } else {
        FileOutside(at, ReadFile(disk, last), last.day, f);
        assert Kept(files, f) == Kept(init, f) + [] == Kept(init, f);
        assert [] + Select(at, ReadFiles(disk, init), f) == Select(at, ReadFiles(disk, init), f);
      }
    }
  }

  lemma DatedFiles(at: Clock, disk: seq<Slot>)
    requires Tidy(DayOfStamp(at), disk)
    ensures forall file :: file in Chosen(disk) ==>
      forall r :: r in ReadFile(disk, file) ==> DayOfStamp(at)(r.ts) == file.day
  {
    hide DayOfStamp;
    forall file, r | file in Chosen(disk) && r in ReadFile(disk, file)
      ensures DayOfStamp(at)(r.ts) == file.day
    {
      ChosenIsBest(disk, file);
      assert TidySlot(DayOfStamp(at), disk[file.day], file.day);
    }
  }

  lemma {:induction false} ChosenIsBest(disk: seq<Slot>, file: FileName)
    requires file in Chosen(disk)
    ensures file.day < |disk| && ReadFile(disk, file) == Content(disk[file.day])
  {
    var last := |disk| - 1;
    if file in Chosen(disk[..last]) {
      ChosenIsBest(disk[..last], file);
    }
  }

  /* The query. */

  /**
   Walks the records of one file backwards, newest first, onto a page; `full` says that the page was full
   when a further match was met.
   */
  method Gather(at: Clock, recs: seq<Record>, f: Filter, page: seq<Record>, limit: nat)
    returns (items: seq<Record>, full: bool)
    requires |page| <= limit
    ensures |items| <= limit
    ensures !full ==> items == page + Select(at, recs, f)
    ensures full ==> |items| == limit && items < page + Select(at, recs, f)
  {
    hide Select, Matches;
    items, full := page, false;
    ghost var all := page + Select(at, recs, f);
    var j := |recs|;
    assert recs[..j] == recs;
    while j > 0
      invariant 0 <= j <= |recs| && |items| <= limit
      invariant all == items + Select(at, recs[..j], f)
    {
      j := j - 1;
      SelectLast(at, recs, j, f);
      var more := Select(at, recs[..j], f);
      if !Matches(at, recs[j], f) {
        assert [] + more == more;
        continue;
      }
      Onward(items, recs[j], more);
      if |items| == limit {
        assert all[..limit] == items;
        return items, true;
      }
      items := items + [recs[j]];
    }
    SelectNone(at, recs[..0], f);
    assert items + [] == items;
  }

  /** What keeps a query from reading on: the directory, a file that cannot be read, a caller that has left. */
  datatype Trouble = Trouble(unlistable: bool, unreadable: set<FileName>, left: set<FileName>) {
    predicate Stops(file: FileName) {
      file in left || file in unreadable
    }
  }

  datatype Answer = Given(page: Page) | CannotList | CannotRead(file: FileName) | CallerLeft

  /** The files of a directory that a query walks. */
  function Walked(disk: seq<Slot>, f: Filter): seq<FileName> {
    Kept(Chosen(disk), f)
  }

  /** What the files from the i-th on have for a filter, newest first. */
  function Newest(at: Clock, disk: seq<Slot>, files: seq<FileName>, i: nat, f: Filter): seq<Record>
    requires i <= |files|
  {
    Select(at, ReadFiles(disk, files[i..]), f)
  }

  /** The i-th file is come to, and the walk ends there: the newer ones do not fill the page and can all be read. */
  ghost predicate EndsAt(at: Clock, disk: seq<Slot>, files: seq<FileName>, i: nat, f: Filter, trouble: Trouble)
    requires i < |files|
  {
    && trouble.Stops(files[i]) && |Newest(at, disk, files, i + 1, f)| <= EffectiveLimit(f.limit)
    && forall j :: i < j < |files| ==> !trouble.Stops(files[j])
  }

  /**
   One page, walking the files backwards and stopping as soon as the page is full and a further match is
   known.  It fails exactly when a file it comes to before that cannot be read or finds the caller gone.
   */
  method Query(at: Clock, dir: Directory, f: Filter, trouble: Trouble) returns (answer: Answer)
    ensures answer.CannotList? <==> trouble.unlistable
    ensures answer.Given? ==> answer.page == PageOf(at, ReadFiles(dir.slots, Walked(dir.slots, f)), f)
    ensures answer.Given? ==> exists places :: IsPage(at, ReadFiles(dir.slots, Walked(dir.slots, f)), f, answer.page, places)
    ensures var files := Walked(dir.slots, f);
            (answer.CallerLeft? || answer.CannotRead? <==>
              !trouble.unlistable && exists i :: 0 <= i < |files| && EndsAt(at, dir.slots, files, i, f, trouble))
            && forall i :: 0 <= i < |files| && EndsAt(at, dir.slots, files, i, f, trouble) && !trouble.unlistable ==>
                 answer == if files[i] in trouble.left then CallerLeft else CannotRead(files[i])
  {
    hide Select, Matches, ReadFile, ReadFiles, Kept, Chosen, Newest, PageOf, IsPage;
    if trouble.unlistable {
      return CannotList;
    }
    var limit := EffectiveLimit(f.limit);
    var names := DedupeByDay(Names(dir.slots));
    DedupedIsChosen(dir.slots);
    var files := WithinWindow(names, f);
    var items: seq<Record> := [];
    NewestNone(at, dir.slots, files, f);
    var i := |files|;
    while i > 0
      invariant 0 <= i <= |files| && |items| <= limit && items == Newest(at, dir.slots, files, i, f)
      invariant forall j :: i <= j < |files| ==> !trouble.Stops(files[j])
    {
      i := i - 1;
      if trouble.Stops(files[i]) {
        assert EndsAt(at, dir.slots, Walked(dir.slots, f), i, f, trouble);
      }
      if files[i] in trouble.left {
        return CallerLeft;
      }
      if files[i] in trouble.unreadable {
        return CannotRead(files[i]);
      }
      NewestOne(at, dir.slots, files, i, f);
      var full;
      items, full := Gather(at, ReadFile(dir.slots, files[i]), f, items, limit);
      if full {
        PageIsFull(at, dir.slots, files, i, f, items);
        ghost var places := PageIs(at, ReadFiles(dir.slots, files), f);
        return Given(Page(items, Some(items[limit - 1].seqNo)));
      }
    }
    PageIsLast(at, dir.slots, files, f);
    ghost var places := PageIs(at, ReadFiles(dir.slots, files), f);
    answer := Given(Page(items, None));
  }

  lemma Onward(items: seq<Record>, r: Record, more: seq<Record>)
    ensures items + ([r] + more) == (items + [r]) + more
  {
  }

  lemma NewestNone(at: Clock, disk: seq<Slot>, files: seq<FileName>, f: Filter)
    ensures Newest(at, disk, files, |files|, f) == []
  {
  }

  lemma {:induction false} ReadsConcat(disk: seq<Slot>, a: seq<FileName>, b: seq<FileName>)
    ensures ReadFiles(disk, a + b) == ReadFiles(disk, a) + ReadFiles(disk, b)
  {
    hide ReadFile;
    if b == [] {
      assert a + b == a;
    } else {
      assert (a + b)[..|a + b| - 1] == a + b[..|b| - 1];
      ReadsConcat(disk, a, b[..|b| - 1]);
    }
  }

  /** The files from the i-th on are first what the later ones have, then what those between have. */
  lemma NewestSplit(at: Clock, disk: seq<Slot>, files: seq<FileName>, i: nat, j: nat, f: Filter)
    requires i <= j <= |files|
    ensures Newest(at, disk, files, i, f) == Newest(at, disk, files, j, f) + Select(at, ReadFiles(disk, files[i..j]), f)
  {
    hide Select, ReadFiles;
    assert files[i..] == files[i..j] + files[j..];
    ReadsConcat(disk, files[i..j], files[j..]);
    SelectConcat(at, ReadFiles(disk, files[i..j]), ReadFiles(disk, files[j..]), f);
  }

  lemma NewestOne(at: Clock, disk: seq<Slot>, files: seq<FileName>, i: nat, f: Filter)
    requires i < |files|
    ensures Newest(at, disk, files, i, f) == Newest(at, disk, files, i + 1, f) + Select(at, ReadFile(disk, files[i]), f)
  {
    hide Select, ReadFile, Newest;
    NewestSplit(at, disk, files, i, i + 1, f);
    assert files[i..i + 1] == [] + [files[i]];
    ReadsOneMore(disk, [], files[i]);
    assert ReadFiles(disk, []) + ReadFile(disk, files[i]) == ReadFile(disk, files[i]);
  }

  /** With more than a page in the files from the i-th on, no older file is come to. */
  lemma PageIsFull(at: Clock, disk: seq<Slot>, files: seq<FileName>, i: nat, f: Filter, items: seq<Record>)
    requires i <= |files| && |items| == EffectiveLimit(f.limit) && items < Newest(at, disk, files, i, f)
    ensures PageOf(at, ReadFiles(disk, files), f) == Page(items, Some(items[|items| - 1].seqNo))
    ensures forall j :: 0 < j <= i ==> |Newest(at, disk, files, j, f)| > EffectiveLimit(f.limit)
  {
    hide Select, ReadFiles;
    assert files[0..] == files;
    NewestSplit(at, disk, files, 0, i, f);
    forall j | 0 < j <= i
      ensures |Newest(at, disk, files, j, f)| > EffectiveLimit(f.limit)
    {
      NewestSplit(at, disk, files, j, i, f);
    }
  }

  lemma PageIsLast(at: Clock, disk: seq<Slot>, files: seq<FileName>, f: Filter)
    requires |Newest(at, disk, files, 0, f)| <= EffectiveLimit(f.limit)
    ensures PageOf(at, ReadFiles(disk, files), f) == Page(Newest(at, disk, files, 0, f), None)
  {
    assert files[0..] == files;
  }

  /** In an archive this writer made the files that are walked have every match of the log. */
  lemma WalkIsTheLog(h: Hash, at: Clock, w: World, f: Filter)
    requires Inv(h, DayOfStamp(at), w)
    ensures PageOf(at, ReadFiles(w.disk, Walked(w.disk, f)), f) == PageOf(at, w.log, f)
    ensures exists places :: IsPage(at, w.log, f, PageOf(at, w.log, f), places)
  {
    hide IsPage;
    var places := PageIs(at, w.log, f);
    hide Select, ReadFile, ReadFiles, Kept, Chosen, ReadAll, Tidy, FromGenesis, Working, Running;
    DatedFiles(at, w.disk);
    PruningIsExact(at, w.disk, Chosen(w.disk), f);
    ChosenRead(w.disk);
  }

  /* What a selection is. */

  /** Every matching record is selected, no other, and the numbers fall. */
  lemma {:induction false} SelectExact(at: Clock, log: seq<Record>, f: Filter)
    requires Numbered(log)
    ensures forall r :: r in Select(at, log, f) <==> r in log && Asked(at, r, f)
    ensures forall i, j :: 0 <= i < j < |Select(at, log, f)| ==>
      Select(at, log, f)[j].seqNo < Select(at, log, f)[i].seqNo
  {
    hide Matches, Asked;
    if log != [] {
      var last, init := log[|log| - 1], log[..|log| - 1];
      SelectExact(at, init, f);
      MatchesAsked(at, last, f);
      assert log == init + [last];
      forall r | r in init
        ensures r.seqNo < last.seqNo
      {
        var k :| 0 <= k < |init| && init[k] == r;
      }
    }
  }

  ghost predicate Numbered(log: seq<Record>) {
    forall i :: 0 <= i < |log| ==> log[i].seqNo == i + 1
  }

  /* Page after page. */

  /** Going on below a record selects what followed it, whatever has been appended since. */
  lemma {:induction false} BelowCursor(at: Clock, log: seq<Record>, later: seq<Record>, f: Filter, k: nat)
    requires Numbered(later) && log <= later && 0 < k <= |Select(at, log, f)|
    ensures Select(at, log, f)[k - 1].seqNo > 0
    ensures Select(at, later, f.(cursor := Select(at, log, f)[k - 1].seqNo)) == Select(at, log, f)[k..]
    decreases |log|
  {
    hide Matches, Select;
    SelectSteps(at, log, f);
    var last, init := log[|log| - 1], log[..|log| - 1];
    if Matches(at, last, f) && k == 1 {
      CursorAt(at, log, later, f);
    } else if Matches(at, last, f) {
      BelowCursor(at, init, later, f, k - 1);
      assert ([last] + Select(at, init, f))[k..] == Select(at, init, f)[k - 1..];
    } else {
      assert [] + Select(at, init, f) == Select(at, init, f);
      BelowCursor(at, init, later, f, k);
    }
  }

  lemma SelectSteps(at: Clock, log: seq<Record>, f: Filter)
    ensures log == [] ==> Select(at, log, f) == []
    ensures log != [] ==>
      Select(at, log, f) ==
      (if Matches(at, log[|log| - 1], f) then [log[|log| - 1]] else []) + Select(at, log[..|log| - 1], f)
  {
    hide Matches;
  }

  lemma NoneAbove(at: Clock, later: seq<Record>, n: nat, f: Filter)
    requires Numbered(later) && 0 < n <= |later| && f.cursor == n
    ensures Select(at, later[n - 1..], f) == []
  {
    forall r | r in later[n - 1..]
      ensures !Matches(at, r, f)
    {
      var k :| n - 1 <= k < |later| && later[k] == r;
    }
    SelectNone(at, later[n - 1..], f);
  }

  lemma AllBelow(at: Clock, log: seq<Record>, n: nat, f: Filter, r: Record)
    requires Numbered(log) && |log| < n && r in log && (f.cursor != 0 ==> n < f.cursor)
    ensures Matches(at, r, f) <==> Matches(at, r, f.(cursor := n))
  {
    var k :| 0 <= k < |log| && log[k] == r;
  }

  /** The cursor is the newest record of log: what is selected below it in a later log is what log has before it. */
  lemma CursorAt(at: Clock, log: seq<Record>, later: seq<Record>, f: Filter)
    requires Numbered(later) && log != [] && log <= later && Matches(at, log[|log| - 1], f)
    ensures log[|log| - 1].seqNo == |log|
    ensures Select(at, later, f.(cursor := |log|)) == Select(at, log[..|log| - 1], f)
  {
    var n := |log|;
    var g := f.(cursor := n);
    assert later[n - 1] == log[n - 1];
    assert f.cursor != 0 ==> n < f.cursor;
    hide Select, Matches;
    var init := log[..n - 1];
    NoneAbove(at, later, n, g);
    assert later == init + later[n - 1..];
    SelectConcat(at, init, later[n - 1..], g);
    assert [] + Select(at, init, g) == Select(at, init, g);
    assert Numbered(init);
    forall r | r in init
      ensures Matches(at, r, f) <==> Matches(at, r, g)
    {
      AllBelow(at, init, n, f, r);
    }
    SameSelect(at, init, f, g);
  }

  lemma {:induction false} SameSelect(at: Clock, log: seq<Record>, f: Filter, g: Filter)
    requires forall r :: r in log ==> (Matches(at, r, f) <==> Matches(at, r, g))
    ensures Select(at, log, f) == Select(at, log, g)
  {
    hide Matches;
    if log != [] {
      assert log[|log| - 1] in log;
      SameSelect(at, log[..|log| - 1], f, g);
    }
  }

  /** The logs as they stood at the first page, the second, and so on. */
  ghost predicate Growing(logs: seq<seq<Record>>) {
    (forall i :: 0 <= i < |logs| ==> Numbered(logs[i])) &&
    forall i :: 0 < i < |logs| ==> logs[i - 1] <= logs[i]
  }

  /** All that is delivered by following the cursor, one log a page, until it is null. */
  function Follow(at: Clock, logs: seq<seq<Record>>, f: Filter): seq<Record>
    decreases |logs|
  {
    if logs == [] then []
    else
      var page := PageOf(at, logs[0], f);
      if page.nextCursor.None? then page.items
      else page.items + Follow(at, logs[1..], f.(cursor := page.nextCursor.value))
  }

  /**
   Following the cursor delivers every match of the log as it stood at the first page, once and newest
   first, however much is appended between the pages; a page a match is enough.
   */
  lemma {:induction false} PaginationIsExact(at: Clock, logs: seq<seq<Record>>, f: Filter)
    requires Growing(logs) && logs != [] && |logs| > |Select(at, logs[0], f)|
    ensures Follow(at, logs, f) == Select(at, logs[0], f)
    decreases |logs|
  {
    hide Select, Matches;
    var all, limit := Select(at, logs[0], f), EffectiveLimit(f.limit);
    if |all| > limit {
      var g := f.(cursor := all[limit - 1].seqNo);
      BelowCursor(at, logs[0], logs[1], f, limit);
      PaginationIsExact(at, logs[1..], g);
      assert all == all[..limit] + all[limit..];
    }
  }

  /* Over runs of the archive. */

  /** Each state is reached from the one before it by some run. */
  ghost predicate Unfolds(h: Hash, dayOf: string -> nat, worlds: seq<World>, runs: seq<seq<Step>>) {
    |runs| + 1 == |worlds| &&
    Inv(h, dayOf, worlds[0]) &&
    forall i :: 0 <= i < |runs| ==> Legal(h, dayOf, worlds[i], runs[i]) && worlds[i + 1] == After(h, dayOf, worlds[i], runs[i])
  }

  ghost function Logs(worlds: seq<World>): (r: seq<seq<Record>>)
    ensures |r| == |worlds| && forall i :: 0 <= i < |worlds| ==> r[i] == worlds[i].log
  {
    seq(|worlds|, i requires 0 <= i < |worlds| => worlds[i].log)
  }

  lemma {:induction false} SealAllExtends(h: Hash, log: seq<Record>, entries: seq<Record>)
    ensures log <= SealAll(h, log, entries)
    decreases |entries|
  {
    hide Sealed;
    if entries != [] {
      SealAllExtends(h, log + [Sealed(h, entries[0], |log| + 1, TailHash(log))], entries[1..]);
    }
  }

  lemma {:induction false} UnfoldsGrowing(h: Hash, dayOf: string -> nat, worlds: seq<World>, runs: seq<seq<Step>>, i: nat)
    requires Unfolds(h, dayOf, worlds, runs) && i < |worlds|
    ensures Inv(h, dayOf, worlds[i]) && Numbered(worlds[i].log)
    ensures i > 0 ==> worlds[i - 1].log <= worlds[i].log
  {
    hide Legal, After, SealAll, Inv;
    if i > 0 {
      UnfoldsGrowing(h, dayOf, worlds, runs, i - 1);
      ArchiveIsOneLog(h, dayOf, worlds[i - 1], runs[i - 1]);
      SealAllExtends(h, worlds[i - 1].log, Entries(runs[i - 1]));
      InvLog(h, dayOf, worlds[i]);
    }
    InvLog(h, dayOf, worlds[i]);
  }

  lemma InvLog(h: Hash, dayOf: string -> nat, w: World)
    requires Inv(h, dayOf, w)
    ensures ReadAll(w.disk) == w.log && Numbered(w.log)
  {
    hide ReadAll, HashOf, Tidy, Working, Running;
    forall i | 0 <= i < |w.log|
      ensures w.log[i].seqNo == i + 1
    {
      assert Follows(h, w.log, i);
    }
  }

  /**
   Between the pages anything may happen to the archive: appends, compressions, crashes and restarts.
   */
  lemma PaginationOverRuns(h: Hash, at: Clock, worlds: seq<World>, runs: seq<seq<Step>>, f: Filter)
    requires Unfolds(h, DayOfStamp(at), worlds, runs) && |worlds| > |Select(at, worlds[0].log, f)|
    ensures Follow(at, Logs(worlds), f) == Select(at, worlds[0].log, f)
  {
    hide Select, Follow, Unfolds;
    var logs := Logs(worlds);
    forall i | 0 <= i < |logs|
      ensures Numbered(logs[i]) && (i > 0 ==> logs[i - 1] <= logs[i])
    {
      UnfoldsGrowing(h, DayOfStamp(at), worlds, runs, i);
    }
    PaginationIsExact(at, logs, f);
  }
}
