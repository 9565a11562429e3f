/** Task records and the rules `TaskManager` (script.js) applies to one record
    or to the list as a value: building a task, merging an edit, toggling
    completion, cloning a completed recurring task, back-filling a loaded
    record, and recovering the id counter after a load. */
module Tasks {
  import opened Opt
  import opened Text
  import opened Tags
  import Seqs

  /** Milliseconds in a day, `24 * 60 * 60 * 1000`. */
  const DayMs: int := 86400000

  datatype Priority = Low | Medium | High | Urgent

  datatype Pattern = Daily | Weekly | Monthly | Yearly

  datatype Subtask = Subtask(title: string, completed: bool)

  /** A task record; timestamps are milliseconds since the epoch, `None` is `null`. */
  datatype Task = Task(
    id: int,
    title: string,
    description: string,
    priority: Priority,
    category: string,
    completed: bool,
    createdAt: int,
    completedAt: Option<int>,
    dueDate: Option<int>,
    estimatedTime: Option<int>,
    tags: seq<string>,
    subtasks: seq<Subtask>,
    location: string,
    url: string,
    recurring: bool,
    recurrencePattern: Pattern,
    timeSpent: int)

  /** `completedAt` is set exactly when `completed` is true. */
  predicate CompletionConsistent(t: Task) {
    t.completed <==> t.completedAt.Some?
  }

  predicate AllConsistent(ts: seq<Task>) {
    forall k :: 0 <= k < |ts| ==> CompletionConsistent(ts[k])
  }

  /** Every id of the list is below `bound`. */
  predicate IdsBelow(ts: seq<Task>, bound: int) {
    forall k :: 0 <= k < |ts| ==> ts[k].id < bound
  }

  /** No two tasks of the list share an id. */
  predicate UniqueIds(ts: seq<Task>) {
    forall i, j :: 0 <= i < j < |ts| ==> ts[i].id != ts[j].id
  }

  /** The fields a task keeps when it is cloned for its next occurrence. */
  predicate SameDetails(a: Task, b: Task) {
    && a.title == b.title && a.description == b.description
    && a.priority == b.priority && a.category == b.category
    && a.estimatedTime == b.estimatedTime && a.tags == b.tags
    && a.location == b.location && a.url == b.url
    && a.recurring == b.recurring && a.recurrencePattern == b.recurrencePattern
  }

  // ----- creation: addTask (script.js:82-119) -----

  /** The data `addTask` receives; a field the caller leaves out is `""`,
      `None` or `false`. */
  datatype TaskInput = TaskInput(
    title: string,
    description: string,
    priority: Option<Priority>,
    category: string,
    dueDate: Option<int>,
    estimatedTime: Option<int>,
    tags: string,
    subtasks: seq<Subtask>,
    location: string,
    url: string,
    recurring: bool,
    recurrencePattern: Option<Pattern>)

  /** A title `addTask` rejects: missing, or white space only. */
  predicate IsBlank(title: string) {
    Trim(title) == []
  }

  /** `text || fallback` on a string: the empty string is falsy. */
  function OrText(text: string, fallback: string): (r: string)
    ensures fallback != [] ==> r != []
    ensures text != [] ==> r == text
    ensures text == [] ==> r == fallback
  {
    if text == [] then fallback else text
  }

  /** `n || null` on an optional number: zero is falsy. */
  function NonZero(n: Option<int>): (r: Option<int>)
    ensures r != Some(0)
    ensures n != Some(0) ==> r == n
    ensures n == Some(0) ==> r == None
  {
    if n == Some(0) then None else n
  }

  /** A record that comes back unchanged from a save and a reload: the
      fields whose empty value the loader would replace are not empty. */
  predicate Reloadable(t: Task) {
    t.title != [] && t.category != [] && t.estimatedTime != Some(0)
  }

  /** The record `addTask` builds for an accepted title. */
  function NewTask(id: int, input: TaskInput, now: int): (t: Task)
    requires !IsBlank(input.title)
    ensures t.id == id && t.createdAt == now && t.timeSpent == 0
    ensures t.title == Trim(input.title) && t.title != [] && IsTrimmed(t.title)
    ensures !t.completed && t.completedAt == None && CompletionConsistent(t)
    ensures t.tags == ParseTags(input.tags)
    ensures forall k :: 0 <= k < |t.tags| ==> IsTag(t.tags[k])
    ensures input.priority.Some? ==> t.priority == input.priority.value
    ensures input.priority.None? ==> t.priority == Medium
    ensures input.category != [] ==> t.category == input.category
    ensures input.category == [] ==> t.category == "personal"
    ensures t.estimatedTime == NonZero(input.estimatedTime)
    ensures input.recurrencePattern.Some? ==> t.recurrencePattern == input.recurrencePattern.value
    ensures input.recurrencePattern.None? ==> t.recurrencePattern == Daily
    ensures t.description == input.description && t.dueDate == input.dueDate
    ensures t.subtasks == input.subtasks && t.location == input.location
    ensures t.url == input.url && t.recurring == input.recurring
    ensures Reloadable(t)
  {
    ParseTagsWellFormed(input.tags);
    Task(
      id, Trim(input.title), input.description, input.priority.GetOr(Medium),
      OrText(input.category, "personal"), false, now, None, input.dueDate,
      NonZero(input.estimatedTime), ParseTags(input.tags), input.subtasks,
      input.location, input.url, input.recurring, input.recurrencePattern.GetOr(Daily), 0)
  }

  // ----- editing: updateTask (script.js:129-146) -----

  /** The tags of an edit: the raw text of the form field, or a list. */
  datatype TagsField = TagText(text: string) | TagList(list: seq<string>)

  /** The fields an edit may carry (the ones `saveEditedTask` sends,
      script.js:803-816); `None` is a field the edit does not mention. */
  datatype Patch = Patch(
    title: Option<string>,
    description: Option<string>,
    priority: Option<Priority>,
    category: Option<string>,
    dueDate: Option<Option<int>>,
    estimatedTime: Option<Option<int>>,
    tags: Option<TagsField>,
    subtasks: Option<seq<Subtask>>,
    location: Option<string>,
    url: Option<string>,
    recurring: Option<bool>,
    recurrencePattern: Option<Pattern>)

  const NoChange: Patch :=
    Patch(None, None, None, None, None, None, None, None, None, None, None, None)

  /** The tags after an edit, tag text always parsed (the intended rule). */
  function PatchedTags(current: seq<string>, update: Option<TagsField>): (tags: seq<string>)
    ensures update.None? ==> tags == current
    ensures update.Some? && update.value.TagList? ==> tags == update.value.list
    ensures update.Some? && update.value.TagText? ==> tags == ParseTags(update.value.text)
    ensures update.Some? && update.value.TagText? ==>
      forall k :: 0 <= k < |tags| ==> IsTag(tags[k])
  {
    match update
    case None => current
    case Some(TagText(text)) => ParseTagsWellFormed(text); ParseTags(text)
    case Some(TagList(list)) => list
  }

  /** The tags value as written: the guard `updates.tags && typeof updates.tags
      === 'string'` is false for the empty text, so the spread stores that text
      itself as the tags value (script.js:135-139). */
  function PatchedTagsAsWritten(current: seq<string>, update: Option<TagsField>): (r: TagsField)
    ensures r.TagList? <==> update != Some(TagText([]))
    ensures r.TagList? ==> r.list == PatchedTags(current, update)
    ensures !r.TagList? ==> r == TagText([])
  {
    match update
    case None => TagList(current)
    case Some(TagText(text)) => if text != [] then TagList(ParseTags(text)) else TagText(text)
    case Some(TagList(list)) => TagList(list)
  }

  /** As written and as intended agree on every edit except empty tag text. */
  lemma PatchedTagsAgree(current: seq<string>, update: Option<TagsField>)
    requires update != Some(TagText([]))
    ensures PatchedTagsAsWritten(current, update) == TagList(PatchedTags(current, update))
  {
  }

  /** As written, saving the edit form of a task that has no tags (the form
      shows `[].join(', ')`, the empty text) replaces the tag list by a text. */
  lemma EditWithoutTagsStoresText(current: seq<string>)
    ensures PatchedTagsAsWritten(current, Some(TagText(JoinTags([])))) == TagText([])
    ensures !PatchedTagsAsWritten(current, Some(TagText(JoinTags([])))).TagList?
  {
  }

  /** With tag text always parsed, saving the edit form without touching the
      tags field keeps every well-formed tag list, the empty one included. */
  lemma EditKeepsTags(tags: seq<string>)
    requires forall k :: 0 <= k < |tags| ==> IsTag(tags[k])
    ensures PatchedTags(tags, Some(TagText(JoinTags(tags)))) == tags
  {
    ParseJoinedTags(tags);
  }

  /** `{ ...task, ...updates }`: every field the edit carries replaces the
      old one, every other field is kept. */
  function ApplyPatch(t: Task, p: Patch): (r: Task)
    ensures r.id == t.id && r.createdAt == t.createdAt && r.timeSpent == t.timeSpent
    ensures r.completed == t.completed && r.completedAt == t.completedAt
    ensures r.tags == PatchedTags(t.tags, p.tags)
    ensures p.tags.Some? && p.tags.value.TagText? ==>
      forall k :: 0 <= k < |r.tags| ==> IsTag(r.tags[k])
    ensures p.title.Some? ==> r.title == p.title.value
    ensures p.title.None? ==> r.title == t.title
    ensures p.description.Some? ==> r.description == p.description.value
    ensures p.description.None? ==> r.description == t.description
    ensures p.priority.Some? ==> r.priority == p.priority.value
    ensures p.priority.None? ==> r.priority == t.priority
    ensures p.category.Some? ==> r.category == p.category.value
    ensures p.category.None? ==> r.category == t.category
    ensures p.dueDate.Some? ==> r.dueDate == p.dueDate.value
    ensures p.dueDate.None? ==> r.dueDate == t.dueDate
    ensures p.estimatedTime.Some? ==> r.estimatedTime == p.estimatedTime.value
    ensures p.estimatedTime.None? ==> r.estimatedTime == t.estimatedTime
    ensures p.subtasks.Some? ==> r.subtasks == p.subtasks.value
    ensures p.subtasks.None? ==> r.subtasks == t.subtasks
    ensures p.location.Some? ==> r.location == p.location.value
    ensures p.location.None? ==> r.location == t.location
    ensures p.url.Some? ==> r.url == p.url.value
    ensures p.url.None? ==> r.url == t.url
    ensures p.recurring.Some? ==> r.recurring == p.recurring.value
    ensures p.recurring.None? ==> r.recurring == t.recurring
    ensures p.recurrencePattern.Some? ==> r.recurrencePattern == p.recurrencePattern.value
    ensures p.recurrencePattern.None? ==> r.recurrencePattern == t.recurrencePattern
  {
    t.(
      title := p.title.GetOr(t.title),
      description := p.description.GetOr(t.description),
      priority := p.priority.GetOr(t.priority),
      category := p.category.GetOr(t.category),
      dueDate := p.dueDate.GetOr(t.dueDate),
      estimatedTime := p.estimatedTime.GetOr(t.estimatedTime),
      tags := PatchedTags(t.tags, p.tags),
      subtasks := p.subtasks.GetOr(t.subtasks),
      location := p.location.GetOr(t.location),
      url := p.url.GetOr(t.url),
      recurring := p.recurring.GetOr(t.recurring),
      recurrencePattern := p.recurrencePattern.GetOr(t.recurrencePattern))
  }

  /** An edit that mentions no field changes nothing. */
  lemma ApplyNoChange(t: Task)
    ensures ApplyPatch(t, NoChange) == t
  {
  }

  /** Saving the same edit twice is saving it once. */
  lemma ApplyPatchIdempotent(t: Task, p: Patch)
    ensures ApplyPatch(ApplyPatch(t, p), p) == ApplyPatch(t, p)
  {
  }

  // ----- completion: toggleTask, createRecurringTask, toggleSubtask -----

  /** The change `toggleTask` makes to the task it finds (script.js:152-153). */
  function Toggled(t: Task, now: int): (r: Task)
    ensures r.completed == !t.completed
    ensures CompletionConsistent(r)
    ensures r.completed ==> r.completedAt == Some(now)
    ensures r == t.(completed := r.completed, completedAt := r.completedAt)
  {
    t.(completed := !t.completed, completedAt := if !t.completed then Some(now) else None)
  }

  /** Toggling a consistent task twice restores its completion state and
      whether it carries a completion time. */
  lemma ToggleTwice(t: Task, now1: int, now2: int)
    requires CompletionConsistent(t)
    ensures Toggled(Toggled(t, now1), now2).completed == t.completed
    ensures Toggled(Toggled(t, now1), now2).completedAt.Some? == t.completedAt.Some?
    ensures Toggled(Toggled(t, now1), now2).(completedAt := t.completedAt) == t
  {
  }

  /** Completing this task spawns its next occurrence (script.js:156-158). */
  predicate Spawns(t: Task) {
    !t.completed && t.recurring
  }

  /** The due date of the next occurrence, counted from the old due date:
      one day or one week later; a month or a year later is what `calendar`
      gives, standing for the JavaScript `Date` arithmetic (script.js:180-193). */
  function NextDue(due: int, pattern: Pattern, calendar: (Pattern, int) -> int): (next: int)
    ensures pattern == Daily ==> next - due == DayMs
    ensures pattern == Weekly ==> next - due == 7 * DayMs
    ensures pattern == Monthly || pattern == Yearly ==> next == calendar(pattern, due)
  {
    match pattern
    case Daily => due + DayMs
    case Weekly => due + 7 * DayMs
    case Monthly => calendar(Monthly, due)
    case Yearly => calendar(Yearly, due)
  }

  /** `subtasks.map(st => ({ ...st, completed: false }))`. */
  function ResetSubtasks(subtasks: seq<Subtask>): (r: seq<Subtask>)
    ensures |r| == |subtasks|
    ensures forall i :: 0 <= i < |r| ==> r[i].title == subtasks[i].title && !r[i].completed
  {
    seq(|subtasks|, i requires 0 <= i < |subtasks| => subtasks[i].(completed := false))
  }

  /** The clone `createRecurringTask` puts in front of the list (script.js:169-203). */
  function Spawn(t: Task, id: int, now: int, calendar: (Pattern, int) -> int): (r: Task)
    ensures r.id == id && r.createdAt == now && r.timeSpent == 0
    ensures !r.completed && CompletionConsistent(r)
    ensures SameDetails(r, t)
    ensures r.subtasks == ResetSubtasks(t.subtasks)
    ensures r.dueDate.Some? <==> t.dueDate.Some?
    ensures t.dueDate.Some? && t.recurrencePattern == Daily ==> r.dueDate == Some(t.dueDate.value + DayMs)
    ensures t.dueDate.Some? && t.recurrencePattern == Weekly ==> r.dueDate == Some(t.dueDate.value + 7 * DayMs)
  {
    t.(
      id := id,
      completed := false,
      completedAt := None,
      createdAt := now,
      dueDate := if t.dueDate.Some? then Some(NextDue(t.dueDate.value, t.recurrencePattern, calendar)) else None,
      subtasks := ResetSubtasks(t.subtasks),
      timeSpent := 0)
  }

  /** The first position of a task with this id (`findIndex`, `find`). */
  function FindIndex(ts: seq<Task>, id: int): (r: Option<nat>)
    ensures r.Some? ==> r.value < |ts| && ts[r.value].id == id
    ensures r.Some? ==> forall j :: 0 <= j < r.value ==> ts[j].id != id
    ensures r.None? ==> forall j :: 0 <= j < |ts| ==> ts[j].id != id
    decreases |ts|
  {
    if ts == [] then None
    else if ts[0].id == id then Some(0)
    else
      match FindIndex(ts[1..], id)
      case None => None
      case Some(k) => Some(k + 1)
  }

  /** The list after `toggleTask` changed the task at `i`: the task toggled in
      place and, when that completed a recurring task, its clone in front. */
  function ToggleAt(ts: seq<Task>, i: nat, nextId: int, now: int, calendar: (Pattern, int) -> int): (r: seq<Task>)
    requires i < |ts|
    ensures Spawns(ts[i]) ==> r == [Spawn(Toggled(ts[i], now), nextId, now, calendar)] + ts[i := Toggled(ts[i], now)]
    ensures !Spawns(ts[i]) ==> r == ts[i := Toggled(ts[i], now)]
  {
    var t := Toggled(ts[i], now);
    if t.completed && t.recurring then [Spawn(t, nextId, now, calendar)] + ts[i := t]
    else ts[i := t]
  }

  /** Completing a recurring task keeps it, now completed, and adds exactly one
      pending clone with the fresh id in front; un-completing adds nothing. */
  lemma ToggleAtSpawn(ts: seq<Task>, i: nat, nextId: int, now: int, calendar: (Pattern, int) -> int)
    requires i < |ts|
    ensures var r := ToggleAt(ts, i, nextId, now, calendar);
      && |r| == |ts| + (if Spawns(ts[i]) then 1 else 0)
      && (Spawns(ts[i]) ==> r[0].id == nextId && !r[0].completed && r[i + 1].completed && r[i + 1].id == ts[i].id)
      && (Spawns(ts[i]) ==> r[1..] == ts[i := Toggled(ts[i], now)])
      && (!Spawns(ts[i]) ==> r[i].completed == !ts[i].completed)
  {
  }

  /** `toggleSubtask`'s change: flip the completion of one subtask. */
  function FlipSubtask(t: Task, index: nat): (r: Task)
    requires index < |t.subtasks|
    ensures |r.subtasks| == |t.subtasks|
    ensures r.subtasks[index].completed == !t.subtasks[index].completed
    ensures r.subtasks[index].title == t.subtasks[index].title
    ensures forall j :: 0 <= j < |t.subtasks| && j != index ==> r.subtasks[j] == t.subtasks[j]
    ensures r == t.(subtasks := r.subtasks)
  {
    var s := t.subtasks[index];
    t.(subtasks := t.subtasks[index := s.(completed := !s.completed)])
  }

  // ----- bulk removal: deleteSelectedTasks, clearCompletedTasks -----

  /** `tasks.filter(task => !selectedTasks.has(task.id))`. */
  function Unselected(ts: seq<Task>, ids: set<int>): (r: seq<Task>)
    ensures forall k :: 0 <= k < |r| ==> r[k] in ts && r[k].id !in ids
    ensures forall k :: 0 <= k < |ts| && ts[k].id !in ids ==> ts[k] in r
    ensures UniqueIds(ts) ==> UniqueIds(r)
    ensures AllConsistent(ts) ==> AllConsistent(r)
    ensures forall bound :: IdsBelow(ts, bound) ==> IdsBelow(r, bound)
  {
    var keep := (t: Task) => t.id !in ids;
    if UniqueIds(ts) then FilterKeepsUnique(ts, keep); Seqs.Filter(ts, keep)
    else Seqs.Filter(ts, keep)
  }

  /** `tasks.filter(task => !task.completed)`. */
  function Incomplete(ts: seq<Task>): (r: seq<Task>)
    ensures forall k :: 0 <= k < |r| ==> r[k] in ts && !r[k].completed
    ensures forall k :: 0 <= k < |ts| && !ts[k].completed ==> ts[k] in r
    ensures UniqueIds(ts) ==> UniqueIds(r)
    ensures AllConsistent(ts) ==> AllConsistent(r)
    ensures forall bound :: IdsBelow(ts, bound) ==> IdsBelow(r, bound)
  {
    var keep := (t: Task) => !t.completed;
    if UniqueIds(ts) then FilterKeepsUnique(ts, keep); Seqs.Filter(ts, keep)
    else Seqs.Filter(ts, keep)
  }

  /** Filtering a list with unique ids keeps them unique. */
  lemma {:induction false} FilterKeepsUnique(ts: seq<Task>, keep: Task -> bool)
    requires UniqueIds(ts)
    ensures UniqueIds(Seqs.Filter(ts, keep))
  {
    if ts != [] {
      FilterKeepsUnique(ts[1..], keep);
      var rest := Seqs.Filter(ts[1..], keep);
      if keep(ts[0]) {
        assert Seqs.Filter(ts, keep) == [ts[0]] + rest;
        forall k | 0 <= k < |rest| ensures rest[k].id != ts[0].id {
          var j :| 0 <= j < |ts[1..]| && ts[1..][j] == rest[k];
          assert ts[j + 1] == rest[k];
        }
        ConsUnique(ts[0], rest);
      } else {
        assert Seqs.Filter(ts, keep) == rest;
      }
    }
  }

  /** A task whose id no task of a list with unique ids has keeps them unique
      in front of it. */
  lemma ConsUnique(t: Task, ts: seq<Task>)
    requires UniqueIds(ts)
    requires forall k :: 0 <= k < |ts| ==> ts[k].id != t.id
    ensures UniqueIds([t] + ts)
  {
    var r := [t] + ts;
    forall i, j | 0 <= i < j < |r| ensures r[i].id != r[j].id {
      assert r[j] == ts[j - 1];
      if i > 0 {
        assert r[i] == ts[i - 1];
      }
    }
  }

  /** Removing one task keeps the id bound, unique ids and consistent
      completion times; with unique ids no task with the removed id is left. */
  lemma RemoveKeeps(ts: seq<Task>, i: nat, bound: int)
    requires i < |ts| && IdsBelow(ts, bound)
    ensures IdsBelow(ts[..i] + ts[i + 1..], bound)
    ensures UniqueIds(ts) ==> UniqueIds(ts[..i] + ts[i + 1..])
    ensures UniqueIds(ts) ==> forall t :: t in ts[..i] + ts[i + 1..] ==> t.id != ts[i].id
    ensures AllConsistent(ts) ==> AllConsistent(ts[..i] + ts[i + 1..])
  {
    var r := ts[..i] + ts[i + 1..];
    assert forall k :: 0 <= k < |r| ==> r[k] == ts[if k < i then k else k + 1];
    if UniqueIds(ts) {
      forall a, b | 0 <= a < b < |r| ensures r[a].id != r[b].id {
        assert r[a] == ts[if a < i then a else a + 1];
        assert r[b] == ts[if b < i then b else b + 1];
      }
    }
  }

  /** Putting a task numbered `bound` in front of a list whose ids are all
      below `bound` keeps unique ids, and every id is then below `bound + 1`. */
  lemma PrependKeeps(t: Task, ts: seq<Task>, bound: int)
    requires IdsBelow(ts, bound) && t.id == bound
    ensures IdsBelow([t] + ts, bound + 1)
    ensures forall k :: 0 <= k < |ts| ==> ts[k].id != t.id
    ensures UniqueIds(ts) ==> UniqueIds([t] + ts)
    ensures CompletionConsistent(t) && AllConsistent(ts) ==> AllConsistent([t] + ts)
  {
    var r := [t] + ts;
    assert forall k :: 1 <= k < |r| ==> r[k] == ts[k - 1];
  }

  /** Replacing a task by one with the same id keeps the id bound and unique ids. */
  lemma ReplaceKeeps(ts: seq<Task>, i: nat, t: Task, bound: int)
    requires i < |ts| && IdsBelow(ts, bound) && t.id == ts[i].id
    ensures IdsBelow(ts[i := t], bound)
    ensures UniqueIds(ts) ==> UniqueIds(ts[i := t])
    ensures AllConsistent(ts) && CompletionConsistent(t) ==> AllConsistent(ts[i := t])
  {
  }

  /** A toggle keeps unique ids and consistent completion times; the id bound
      goes up by one exactly when a clone is spawned. */
  lemma ToggleAtKeeps(ts: seq<Task>, i: nat, nextId: int, now: int, calendar: (Pattern, int) -> int)
    requires i < |ts| && IdsBelow(ts, nextId)
    ensures IdsBelow(ToggleAt(ts, i, nextId, now, calendar), nextId + if Spawns(ts[i]) then 1 else 0)
    ensures UniqueIds(ts) ==> UniqueIds(ToggleAt(ts, i, nextId, now, calendar))
    ensures AllConsistent(ts) ==> AllConsistent(ToggleAt(ts, i, nextId, now, calendar))
  {
    var t := Toggled(ts[i], now);
    ReplaceKeeps(ts, i, t, nextId);
    if Spawns(ts[i]) {
      PrependKeeps(Spawn(t, nextId, now, calendar), ts[i := t], nextId);
    }
  }

  // ----- loading: migrateTask (script.js:49-69) and the id recovery (script.js:41) -----

  /** A record as read back from storage: every field may be missing, and old
      records carry their title under `text`. */
  datatype SavedTask = SavedTask(
    id: int,
    text: Option<string>,
    title: Option<string>,
    description: Option<string>,
    priority: Option<Priority>,
    category: Option<string>,
    completed: Option<bool>,
    createdAt: Option<int>,
    completedAt: Option<int>,
    dueDate: Option<int>,
    estimatedTime: Option<int>,
    tags: Option<seq<string>>,
    subtasks: Option<seq<Subtask>>,
    location: Option<string>,
    url: Option<string>,
    recurring: Option<bool>,
    recurrencePattern: Option<Pattern>,
    timeSpent: Option<int>)

  /** A present, non-empty string. */
  predicate Truthy(s: Option<string>) {
    s.Some? && s.value != []
  }

  /** `migrateTask`: every missing field back-filled with its default. */
  function Migrate(raw: SavedTask, now: int): (t: Task)
    ensures t.id == raw.id
    ensures Reloadable(t)
    ensures Truthy(raw.text) ==> t.title == raw.text.value
    ensures !Truthy(raw.text) && Truthy(raw.title) ==> t.title == raw.title.value
    ensures !Truthy(raw.text) && !Truthy(raw.title) ==> t.title == "Untitled Task"
    ensures raw.description.Some? ==> t.description == raw.description.value
    ensures raw.description.None? ==> t.description == ""
    ensures raw.priority.Some? ==> t.priority == raw.priority.value
    ensures raw.priority.None? ==> t.priority == Medium
    ensures Truthy(raw.category) ==> t.category == raw.category.value
    ensures !Truthy(raw.category) ==> t.category == "personal"
    ensures raw.completed.Some? ==> t.completed == raw.completed.value
    ensures raw.completed.None? ==> !t.completed
    ensures raw.createdAt.Some? ==> t.createdAt == raw.createdAt.value
    ensures raw.createdAt.None? ==> t.createdAt == now
    ensures t.completedAt == raw.completedAt && t.dueDate == raw.dueDate
    ensures t.estimatedTime == NonZero(raw.estimatedTime)
    ensures raw.tags.Some? ==> t.tags == raw.tags.value
    ensures raw.tags.None? ==> t.tags == []
    ensures raw.subtasks.Some? ==> t.subtasks == raw.subtasks.value
    ensures raw.subtasks.None? ==> t.subtasks == []
    ensures raw.location.Some? ==> t.location == raw.location.value
    ensures raw.location.None? ==> t.location == ""
    ensures raw.url.Some? ==> t.url == raw.url.value
    ensures raw.url.None? ==> t.url == ""
    ensures raw.recurring.Some? ==> t.recurring == raw.recurring.value
    ensures raw.recurring.None? ==> !t.recurring
    ensures raw.recurrencePattern.Some? ==> t.recurrencePattern == raw.recurrencePattern.value
    ensures raw.recurrencePattern.None? ==> t.recurrencePattern == Daily
    ensures raw.timeSpent.Some? ==> t.timeSpent == raw.timeSpent.value
    ensures raw.timeSpent.None? ==> t.timeSpent == 0
  {
    Task(
      raw.id,
      if Truthy(raw.text) then raw.text.value
      else if Truthy(raw.title) then raw.title.value
      else "Untitled Task",
      raw.description.GetOr(""),
      raw.priority.GetOr(Medium),
      OrText(raw.category.GetOr(""), "personal"),
      raw.completed.GetOr(false),
      raw.createdAt.GetOr(now),
      raw.completedAt,
      raw.dueDate,
      NonZero(raw.estimatedTime),
      raw.tags.GetOr([]),
      raw.subtasks.GetOr([]),
      raw.location.GetOr(""),
      raw.url.GetOr(""),
      raw.recurring.GetOr(false),
      raw.recurrencePattern.GetOr(Daily),
      raw.timeSpent.GetOr(0))
  }

  /** The record `saveTasks` writes for a task: every field present. */
  function Saved(t: Task): SavedTask {
    SavedTask(
      t.id, None, Some(t.title), Some(t.description), Some(t.priority), Some(t.category),
      Some(t.completed), Some(t.createdAt), t.completedAt, t.dueDate, t.estimatedTime,
      Some(t.tags), Some(t.subtasks), Some(t.location), Some(t.url), Some(t.recurring),
      Some(t.recurrencePattern), Some(t.timeSpent))
  }

  /** Saving a reloadable task and loading it back gives the same task. */
  lemma MigrateSaved(t: Task, now: int)
    requires Reloadable(t)
    ensures Migrate(Saved(t), now) == t
  {
  }

  /** Migrating a migrated record again changes nothing. */
  lemma MigrateIdempotent(raw: SavedTask, now: int, later: int)
    ensures Migrate(Saved(Migrate(raw, now)), later) == Migrate(raw, now)
  {
    MigrateSaved(Migrate(raw, now), later);
  }

  function MigrateAll(raws: seq<SavedTask>, now: int): (ts: seq<Task>)
    ensures |ts| == |raws|
    ensures forall k :: 0 <= k < |ts| ==> ts[k] == Migrate(raws[k], now)
  {
    seq(|raws|, k requires 0 <= k < |raws| => Migrate(raws[k], now))
  }

  /** `Math.max(...ids, 0)`. */
  function MaxIdOrZero(ts: seq<Task>): (m: int)
    ensures m >= 0
    ensures forall k :: 0 <= k < |ts| ==> ts[k].id <= m
    ensures m == 0 || exists k :: 0 <= k < |ts| && ts[k].id == m
    decreases |ts|
  {
    if ts == [] then 0
    else
      var rest := MaxIdOrZero(ts[1..]);
      assert forall k :: 1 <= k < |ts| ==> ts[k] == ts[1..][k - 1];
      if ts[0].id > rest then ts[0].id else rest
  }

  /** The counter after a load: one past the largest id, at least 1; it is the
      least value above every loaded id and 0. */
  function NextIdAfterLoad(ts: seq<Task>): (n: int)
    ensures n >= 1
    ensures forall k :: 0 <= k < |ts| ==> ts[k].id < n
    ensures n == 1 || exists k :: 0 <= k < |ts| && ts[k].id == n - 1
  {
    MaxIdOrZero(ts) + 1
  }
}
