/** `getFilteredTasks` (script.js:260-329): the tasks the list shows, found by
    the search text, narrowed by the selected filter, and ordered pending
    first, then by priority, then by due date, then newest first. */
module Query {
  import opened Opt
  import opened Text
  import opened Tasks
  import Seqs

  /** The filter buttons; an unknown filter name shows everything, as `ShowAll`. */
  datatype Selector = ShowAll | ShowPending | ShowCompleted | ShowHigh | ShowUrgent | ShowOverdue | ShowToday

  /** The search test (script.js:266-271): the lower-cased query occurs in the
      lower-cased title, description or category, or in one of the tags as
      stored (tags are compared without lower-casing). */
  predicate MatchesSearch(t: Task, query: string)
    ensures Lower(query) == [] ==> MatchesSearch(t, query)
  {
    var q := Lower(query);
    || Contains(Lower(t.title), q)
    || Contains(Lower(t.description), q)
    || (exists k :: 0 <= k < |t.tags| && Contains(t.tags[k], q))
    || Contains(Lower(t.category), q)
  }

  /** The filter test (script.js:277-305); `now` is the current instant and
      `startOfToday` the local midnight that starts the current day. */
  predicate Selects(f: Selector, t: Task, now: int, startOfToday: int)
    ensures (f == ShowOverdue || f == ShowToday) && Selects(f, t, now, startOfToday) ==>
      t.dueDate.Some? && !t.completed
    ensures (f == ShowPending || f == ShowCompleted) ==>
      (Selects(f, t, now, startOfToday) <==> t.completed == (f == ShowCompleted))
  {
    match f
    case ShowAll => true
    case ShowPending => !t.completed
    case ShowCompleted => t.completed
    case ShowHigh => t.priority == High
    case ShowUrgent => t.priority == Urgent
    case ShowOverdue => t.dueDate.Some? && !t.completed && t.dueDate.value < now
    case ShowToday =>
      t.dueDate.Some? && !t.completed && startOfToday <= t.dueDate.value < startOfToday + DayMs
  }

  function SearchTest(query: string): Task -> bool {
    (t: Task) => MatchesSearch(t, query)
  }

  function FilterTest(f: Selector, now: int, startOfToday: int): Task -> bool {
    (t: Task) => Selects(f, t, now, startOfToday)
  }

  /** `priorityOrder` of the comparator. */
  function Rank(p: Priority): (r: int)
    ensures 1 <= r <= 4
  {
    match p
    case Urgent => 4
    case High => 3
    case Medium => 2
    case Low => 1
  }

  /** Urgent ranks above high, high above medium, medium above low. */
  lemma RankOrder()
    ensures Rank(Low) < Rank(Medium) < Rank(High) < Rank(Urgent)
  {
  }

  /** The comparator passed to `sort` (script.js:308-326). */
  function Compare(a: Task, b: Task): (c: int)
    ensures c < 0 <==> KeyLess(Key(a), Key(b))
    ensures c == 0 <==> Key(a) == Key(b)
  {
    if a.completed != b.completed then (if a.completed then 1 else 0) - (if b.completed then 1 else 0)
    else if Rank(a.priority) != Rank(b.priority) then Rank(b.priority) - Rank(a.priority)
    else if a.dueDate.Some? && b.dueDate.Some? then a.dueDate.value - b.dueDate.value
    else if a.dueDate.Some? && b.dueDate.None? then -1
    else if a.dueDate.None? && b.dueDate.Some? then 1
    else b.createdAt - a.createdAt
  }

  /** The order the comparator implements, as a tuple compared left to right:
      pending before completed, higher priority first, dated before undated,
      earlier due date first, and among undated tasks the newest first. */
  datatype SortKey = SortKey(done: int, rank: int, undated: int, time: int)

  function Key(t: Task): SortKey {
    SortKey(
      if t.completed then 1 else 0,
      -Rank(t.priority),
      if t.dueDate.Some? then 0 else 1,
      if t.dueDate.Some? then t.dueDate.value else -t.createdAt)
  }

  predicate KeyLess(x: SortKey, y: SortKey) {
    || x.done < y.done
    || (x.done == y.done && x.rank < y.rank)
    || (x.done == y.done && x.rank == y.rank && x.undated < y.undated)
    || (x.done == y.done && x.rank == y.rank && x.undated == y.undated && x.time < y.time)
  }

  /** The comparator is antisymmetric: swapping its arguments flips its sign. */
  lemma CompareAntisymmetric(a: Task, b: Task)
    ensures Compare(a, b) < 0 <==> Compare(b, a) > 0
    ensures Compare(a, b) == 0 <==> Compare(b, a) == 0
  {
  }

  /** The comparator is transitive, so `sort` receives a consistent order. */
  lemma CompareTransitive(a: Task, b: Task, c: Task)
    requires Compare(a, b) <= 0 && Compare(b, c) <= 0
    ensures Compare(a, c) <= 0
  {
  }

  /** Every element is at or before every later one. */
  predicate Ordered(s: seq<Task>) {
    forall i, j :: 0 <= i < j < |s| ==> Compare(s[i], s[j]) <= 0
  }

  /** `x` placed before the first element it does not come after. */
  function Insert(x: Task, s: seq<Task>): (r: seq<Task>)
    ensures multiset(r) == multiset(s) + multiset{x}
    ensures |r| == |s| + 1
    decreases |s|
  {
    if s == [] then [x]
    else if Compare(x, s[0]) <= 0 then [x] + s
    else
      assert s == [s[0]] + s[1..];
      [s[0]] + Insert(x, s[1..])
  }

  /** A task at or before every element of an ordered list can go in front of it. */
  lemma OrderedCons(y: Task, s: seq<Task>)
    requires Ordered(s)
    requires forall j :: 0 <= j < |s| ==> Compare(y, s[j]) <= 0
    ensures Ordered([y] + s)
  {
    var r := [y] + s;
    forall i, j | 0 <= i < j < |r| ensures Compare(r[i], r[j]) <= 0 {
      assert r[j] == s[j - 1];
      if i > 0 {
        assert r[i] == s[i - 1];
      }
    }
  }

  /** What comes after `s[0]` in an ordered list is not before it. */
  lemma HeadFirst(s: seq<Task>, e: Task)
    requires Ordered(s) && s != [] && e in multiset(s[1..])
    ensures Compare(s[0], e) <= 0
  {
    var k :| 0 <= k < |s[1..]| && s[1..][k] == e;
    assert s[k + 1] == e;
  }

  lemma {:induction false} InsertOrdered(x: Task, s: seq<Task>)
    requires Ordered(s)
    ensures Ordered(Insert(x, s))
    decreases |s|
  {
    if s == [] {
    } else if Compare(x, s[0]) <= 0 {
      forall j | 0 <= j < |s| ensures Compare(x, s[j]) <= 0 {
        if j > 0 {
          CompareTransitive(x, s[0], s[j]);
        }
      }
      OrderedCons(x, s);
    } else {
      assert Ordered(s[1..]);
      InsertOrdered(x, s[1..]);
      var rest := Insert(x, s[1..]);
      forall j | 0 <= j < |rest| ensures Compare(s[0], rest[j]) <= 0 {
        assert rest[j] in multiset(rest);
        if rest[j] != x {
          HeadFirst(s, rest[j]);
        } else {
          CompareAntisymmetric(x, s[0]);
        }
      }
      OrderedCons(s[0], rest);
    }
  }

  /** Insertion sort: a stable sort under `Compare`, as `Array.prototype.sort` is. */
  function Sort(s: seq<Task>): (r: seq<Task>)
    ensures multiset(r) == multiset(s)
    ensures Ordered(r)
    decreases |s|
  {
    if s == [] then []
    else
      var rest := Sort(s[1..]);
      assert s == [s[0]] + s[1..];
      InsertOrdered(s[0], rest);
      Insert(s[0], rest)
  }

  /** The elements of `s` whose sort key is `k`, in their order in `s`. */
  function WithKey(s: seq<Task>, k: SortKey): seq<Task>
    decreases |s|
  {
    if s == [] then [] else (if Key(s[0]) == k then [s[0]] else []) + WithKey(s[1..], k)
  }

  lemma WithKeyCons(x: Task, s: seq<Task>, k: SortKey)
    ensures WithKey([x] + s, k) == (if Key(x) == k then [x] else []) + WithKey(s, k)
  {
    assert ([x] + s)[1..] == s;
  }

  /** Insertion puts `x` before every element with the same key. */
  lemma {:induction false} InsertStable(x: Task, s: seq<Task>, k: SortKey)
    ensures WithKey(Insert(x, s), k) == (if Key(x) == k then [x] else []) + WithKey(s, k)
    decreases |s|
  {
    if s == [] {
      WithKeyCons(x, [], k);
    } else if Compare(x, s[0]) <= 0 {
      WithKeyCons(x, s, k);
    } else {
      InsertStable(x, s[1..], k);
      assert Insert(x, s) == [s[0]] + Insert(x, s[1..]);
      WithKeyCons(s[0], Insert(x, s[1..]), k);
      WithKeyCons(s[0], s[1..], k);
      assert s == [s[0]] + s[1..];
      // x and s[0] have different keys, so at most one of them is kept.
      assert Key(x) != Key(s[0]);
      SwapKept(if Key(x) == k then [x] else [], if Key(s[0]) == k then [s[0]] else [], WithKey(s[1..], k));
    }
  }

  /** Two pieces of which at most one is non-empty can be put in either order. */
  lemma SwapKept(a: seq<Task>, b: seq<Task>, rest: seq<Task>)
    requires a == [] || b == []
    ensures b + (a + rest) == a + (b + rest)
  {
    if a == [] {
      assert b + (a + rest) == b + rest;
    } else {
      assert b + (a + rest) == a + rest;
    }
  }

  /** Sorting keeps the relative order of tasks with equal keys. */
  lemma {:induction false} SortStable(s: seq<Task>, k: SortKey)
    ensures WithKey(Sort(s), k) == WithKey(s, k)
    decreases |s|
  {
    if s != [] {
      SortStable(s[1..], k);
      InsertStable(s[0], Sort(s[1..]), k);
      WithKeyCons(s[0], s[1..], k);
      assert s == [s[0]] + s[1..];
    }
  }

  /** A task the list shows: it matches the search (an empty search matches
      everything) and passes the filter. */
  predicate Shown(t: Task, f: Selector, query: string, now: int, startOfToday: int) {
    (query == [] || MatchesSearch(t, query)) && Selects(f, t, now, startOfToday)
  }

  /** The search step: skipped for the empty query. */
  function Searched(ts: seq<Task>, query: string): (r: seq<Task>)
    ensures query == [] ==> r == ts
    ensures |r| <= |ts|
    ensures forall t :: t in r <==> t in ts && (query == [] || MatchesSearch(t, query))
  {
    if query == [] then ts else Seqs.Filter(ts, SearchTest(query))
  }

  /** The tasks that pass the search and the filter, in list order. */
  function Candidates(ts: seq<Task>, f: Selector, query: string, now: int, startOfToday: int): (r: seq<Task>)
    ensures |r| <= |ts|
    ensures forall t :: t in r <==> t in ts && Shown(t, f, query, now, startOfToday)
  {
    Seqs.Filter(Searched(ts, query), FilterTest(f, now, startOfToday))
  }

  /** `getFilteredTasks`: the candidates, sorted. */
  function Filtered(ts: seq<Task>, f: Selector, query: string, now: int, startOfToday: int): (r: seq<Task>)
    ensures Ordered(r)
    ensures multiset(r) == multiset(Candidates(ts, f, query, now, startOfToday))
  {
    Sort(Candidates(ts, f, query, now, startOfToday))
  }

  /** Each task appears in the result as often as in the list when it is shown,
      and not at all otherwise. */
  lemma FilteredCount(ts: seq<Task>, f: Selector, query: string, now: int, startOfToday: int, t: Task)
    ensures multiset(Filtered(ts, f, query, now, startOfToday))[t]
      == if Shown(t, f, query, now, startOfToday) then multiset(ts)[t] else 0
  {
    var searched := Searched(ts, query);
    if query != [] {
      Seqs.FilterCount(ts, SearchTest(query), t);
    }
    assert multiset(searched)[t] == if query == [] || MatchesSearch(t, query) then multiset(ts)[t] else 0;
    Seqs.FilterCount(searched, FilterTest(f, now, startOfToday), t);
  }

  /** A task is in the result exactly when it is in the list and shown. */
  lemma FilteredMembers(ts: seq<Task>, f: Selector, query: string, now: int, startOfToday: int, t: Task)
    ensures t in Filtered(ts, f, query, now, startOfToday) <==> t in ts && Shown(t, f, query, now, startOfToday)
  {
    FilteredCount(ts, f, query, now, startOfToday, t);
    assert t in Filtered(ts, f, query, now, startOfToday) <==> t in multiset(Filtered(ts, f, query, now, startOfToday));
    assert t in ts <==> t in multiset(ts);
  }

  /** Tasks the comparator ties keep their list order in the result. */
  lemma FilteredStable(ts: seq<Task>, f: Selector, query: string, now: int, startOfToday: int, k: SortKey)
    ensures WithKey(Filtered(ts, f, query, now, startOfToday), k) == WithKey(Candidates(ts, f, query, now, startOfToday), k)
  {
    SortStable(Candidates(ts, f, query, now, startOfToday), k);
  }

  /** The result holds exactly the listed tasks that are shown. */
  lemma FilteredShows(ts: seq<Task>, f: Selector, query: string, now: int, startOfToday: int)
    ensures forall t :: t in Filtered(ts, f, query, now, startOfToday) <==> t in ts && Shown(t, f, query, now, startOfToday)
  {
    forall t {
      FilteredMembers(ts, f, query, now, startOfToday, t);
    }
  }

  /** With no search and the "all" filter the list shows every task once. */
  lemma ShowEverything(ts: seq<Task>, now: int, startOfToday: int)
    ensures multiset(Filtered(ts, ShowAll, [], now, startOfToday)) == multiset(ts)
  {
    forall t {
      FilteredCount(ts, ShowAll, [], now, startOfToday, t);
    }
  }

  /** The search ignores the case of the query. */
  lemma SearchIgnoresQueryCase(t: Task, query: string)
    ensures MatchesSearch(t, query) <==> MatchesSearch(t, Lower(query))
  {
    assert Lower(Lower(query)) == Lower(query);
  }

  /** On a day that contains `now`, a pending dated task is shown by both the
      "overdue" and the "today" filter exactly when it fell due earlier today;
      by "overdue" alone when it fell due before today; by "today" alone when
      it falls due later today; and by neither when it falls due after today. */
  lemma DueFilters(t: Task, now: int, startOfToday: int)
    requires startOfToday <= now < startOfToday + DayMs
    requires t.dueDate.Some? && !t.completed
    ensures Selects(ShowOverdue, t, now, startOfToday) && Selects(ShowToday, t, now, startOfToday)
      <==> startOfToday <= t.dueDate.value < now
    ensures Selects(ShowOverdue, t, now, startOfToday) && !Selects(ShowToday, t, now, startOfToday)
      <==> t.dueDate.value < startOfToday
    ensures !Selects(ShowOverdue, t, now, startOfToday) && Selects(ShowToday, t, now, startOfToday)
      <==> now <= t.dueDate.value < startOfToday + DayMs
    ensures !Selects(ShowOverdue, t, now, startOfToday) && !Selects(ShowToday, t, now, startOfToday)
      <==> startOfToday + DayMs <= t.dueDate.value
  {
  }

  const Sample: Task := Task(0, "task", "", Medium, "personal", false, 0, None, None, None, [], [], "", "", false, Daily, 0)

  /** A pending high-priority task due a day after `now`. */
  function DueTomorrow(now: int): Task {
    Sample.(id := 1, priority := High, dueDate := Some(now + DayMs))
  }

  /** A pending urgent task with no due date. */
  function UrgentUndated(): Task {
    Sample.(id := 2, priority := Urgent)
  }

  /** An urgent task completed at `now`. */
  function UrgentDone(now: int): Task {
    Sample.(id := 3, priority := Urgent, completed := true, completedAt := Some(now))
  }

  lemma ExampleCompares(now: int)
    ensures Compare(UrgentUndated(), UrgentDone(now)) < 0
    ensures Compare(DueTomorrow(now), UrgentUndated()) > 0
    ensures Compare(DueTomorrow(now), UrgentDone(now)) < 0
  {
  }

  /** Three tasks where the second comes first, then the first, then the
      third, are sorted into that order. */
  lemma SortMiddleFirst(a: Task, b: Task, c: Task)
    requires Compare(b, c) <= 0 && Compare(a, b) > 0 && Compare(a, c) <= 0
    ensures Sort([a, b, c]) == [b, a, c]
  {
    assert [a, b, c][1..] == [b, c];
    assert [b, c][1..] == [c];
    assert Sort([c]) == [c];
    InsertFront(b, [c]);
    InsertBehind(a, [b, c]);
    InsertFront(a, [c]);
  }

  /** A task at or before the head goes in front. */
  lemma InsertFront(x: Task, s: seq<Task>)
    requires s != [] && Compare(x, s[0]) <= 0
    ensures Insert(x, s) == [x] + s
  {
  }

  /** A task that comes after the head is inserted into the rest. */
  lemma InsertBehind(x: Task, s: seq<Task>)
    requires s != [] && Compare(x, s[0]) > 0
    ensures Insert(x, s) == [s[0]] + Insert(x, s[1..])
  {
  }

  /** A pending high-priority task due tomorrow (A), a pending urgent task with
      no due date (B) and a completed urgent task (C) are shown as B, A, C. */
  lemma SortExample(now: int)
    ensures Sort([DueTomorrow(now), UrgentUndated(), UrgentDone(now)])
         == [UrgentUndated(), DueTomorrow(now), UrgentDone(now)]
  {
    ExampleCompares(now);
    SortMiddleFirst(DueTomorrow(now), UrgentUndated(), UrgentDone(now));
  }

  /** Two tasks with the same completion, priority and due date tie, whatever
      their creation times: the comparator never looks at `createdAt` when both
      are dated, so the stable sort keeps them in list order. */
  lemma EqualDueDatesTie(a: Task, b: Task)
    requires a.completed == b.completed && a.priority == b.priority
    requires a.dueDate.Some? && a.dueDate == b.dueDate
    ensures Compare(a, b) == 0 && Compare(b, a) == 0
    ensures Key(a) == Key(b)
  {
  }

  lemma SampleLowerings()
    ensures Lower("work") == "work" && Lower("x") == "x" && Lower("") == ""
    ensures Lower("WORK") == "work"
  {
    assert IsLowerCase("work") && IsLowerCase("x");
    var l := Lower("WORK");
    assert l[0] == 'w' && l[1] == 'o' && l[2] == 'r' && l[3] == 'k';
  }

  lemma WorkNotInWork()
    ensures !Contains("Work", "work")
  {
    assert "Work"[..4] != "work" by {
      assert "Work"[..4][0] == 'W';
    }
    assert "Work"[1..] == "ork" && "ork"[1..] == "rk" && "rk"[1..] == "k" && "k"[1..] == "";
  }

  lemma UpperTagNotFound()
    ensures !MatchesSearch(Sample.(title := "x", category := "x", tags := ["Work"]), "work")
  {
    SampleLowerings();
    WorkNotInWork();
  }

  lemma LowerTagFound()
    ensures MatchesSearch(Sample.(title := "x", category := "x", tags := ["work"]), "WORK")
  {
    SampleLowerings();
    assert StartsWith("work", "work") by {
      assert "work"[..4] == "work";
    }
    var found := Sample.(title := "x", category := "x", tags := ["work"]);
    assert Contains(found.tags[0], Lower("WORK"));
  }

  /** The tags are searched as stored, against the lower-cased query: a tag
      "Work" is not found by the search "work", while a tag "work" is found
      even by "WORK". */
  lemma TagSearchIsCaseSensitive()
    ensures !MatchesSearch(Sample.(title := "x", category := "x", tags := ["Work"]), "work")
    ensures MatchesSearch(Sample.(title := "x", category := "x", tags := ["work"]), "WORK")
  {
    UpperTagNotFound();
    LowerTagFound();
  }
}
