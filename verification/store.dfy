/** The `TaskManager` object itself (script.js:2-366): the task list, the id
    counter, the selection, the current filter and search text, and the list
    last written to storage. */
module Store {
  import opened Opt
  import opened Tasks
  import opened Query

  /** The ids of a list of tasks. */
  function IdsOf(ts: seq<Task>): set<int> {
    set k | 0 <= k < |ts| :: ts[k].id
  }

  lemma IdsOfSnoc(ts: seq<Task>, i: nat)
    requires i < |ts|
    ensures IdsOf(ts[..i + 1]) == IdsOf(ts[..i]) + {ts[i].id}
  {
    assert ts[..i + 1][i] == ts[i];
    forall x | x in IdsOf(ts[..i + 1]) ensures x in IdsOf(ts[..i]) + {ts[i].id} {
      var k :| 0 <= k < i + 1 && ts[..i + 1][k].id == x;
      if k < i {
        assert ts[..i][k] == ts[..i + 1][k];
      }
    }
    forall x | x in IdsOf(ts[..i]) ensures x in IdsOf(ts[..i + 1]) {
      var k :| 0 <= k < i && ts[..i][k].id == x;
      assert ts[..i + 1][k] == ts[..i][k];
    }
  }

  /** `every(task => selected.has(task.id))` is inclusion of the ids. */
  lemma AllSelected(ts: seq<Task>, selected: set<int>)
    ensures (forall k | 0 <= k < |ts| :: ts[k].id in selected) <==> IdsOf(ts) <= selected
  {
  }

  class TaskStore {
    var tasks: seq<Task>
    var nextId: int
    var selected: set<int>
    var currentFilter: Selector
    var searchQuery: string
    /** The list `saveTasks` last wrote; `None` until the first write. */
    var saved: Option<seq<Task>>

    /** The counter is positive and above every id in the list, so the next
        task it numbers gets an id no task has. */
    ghost predicate Valid()
      reads this
    {
      nextId >= 1 && IdsBelow(tasks, nextId)
    }

    /** `new TaskManager()` with its `loadTasks` step (script.js:3-47): no
        stored list leaves the defaults; a stored list is migrated record by
        record and the counter resumes one past its largest id. */
    constructor Load(stored: Option<seq<SavedTask>>, now: int)
      ensures Valid()
      ensures stored.None? ==> tasks == [] && nextId == 1
      ensures stored.Some? ==> tasks == MigrateAll(stored.value, now) && nextId == NextIdAfterLoad(tasks)
      ensures selected == {} && currentFilter == ShowAll && searchQuery == [] && saved == None
    {
      var loaded := if stored.Some? then MigrateAll(stored.value, now) else [];
      tasks := loaded;
      nextId := if stored.Some? then NextIdAfterLoad(loaded) else 1;
      selected := {};
      currentFilter := ShowAll;
      searchQuery := [];
      saved := None;
    }

    /** `getFilteredTasks` on the current filter and search text. */
    function Visible(now: int, startOfToday: int): (r: seq<Task>)
      reads this`tasks, this`currentFilter, this`searchQuery
      ensures Ordered(r)
      ensures forall t :: t in r <==> t in tasks && Shown(t, currentFilter, searchQuery, now, startOfToday)
    {
      FilteredShows(tasks, currentFilter, searchQuery, now, startOfToday);
      Filtered(tasks, currentFilter, searchQuery, now, startOfToday)
    }

    /** `addTask` (script.js:82-119): a blank title is refused and changes
        nothing; otherwise the new task, numbered by the counter, goes in front
        and the list is saved. */
    method AddTask(input: TaskInput, now: int) returns (ok: bool)
      requires Valid()
      modifies this`tasks, this`nextId, this`saved
      ensures Valid()
      ensures ok <==> !IsBlank(input.title)
      ensures !ok ==> tasks == old(tasks) && nextId == old(nextId) && saved == old(saved)
      ensures ok ==> tasks == [NewTask(old(nextId), input, now)] + old(tasks)
      ensures ok ==> nextId == old(nextId) + 1 && saved == Some(tasks)
      ensures ok ==> forall k :: 0 <= k < |old(tasks)| ==> old(tasks)[k].id != tasks[0].id
      ensures UniqueIds(old(tasks)) ==> UniqueIds(tasks)
      ensures AllConsistent(old(tasks)) ==> AllConsistent(tasks)
    {
      if IsBlank(input.title) {
        return false;
      }
      Push(NewTask(nextId, input, now));
      saved := Some(tasks);
      ok := true;
    }

    /** Puts a task numbered by the counter in front and advances the counter. */
    method Push(t: Task)
      requires Valid() && t.id == nextId
      modifies this`tasks, this`nextId
      ensures Valid()
      ensures tasks == [t] + old(tasks) && nextId == old(nextId) + 1
      ensures forall k :: 0 <= k < |old(tasks)| ==> old(tasks)[k].id != t.id
      ensures UniqueIds(old(tasks)) ==> UniqueIds(tasks)
      ensures CompletionConsistent(t) && AllConsistent(old(tasks)) ==> AllConsistent(tasks)
    {
      PrependKeeps(t, tasks, nextId);
      tasks := [t] + tasks;
      nextId := nextId + 1;
    }

    /** `updateTask` (script.js:129-146): an unknown id changes nothing;
        otherwise the edit is merged into the first task with that id and the
        list is saved. */
    method UpdateTask(id: int, patch: Patch) returns (ok: bool)
      requires Valid()
      modifies this`tasks, this`saved
      ensures Valid()
      ensures ok <==> FindIndex(old(tasks), id).Some?
      ensures !ok ==> tasks == old(tasks) && saved == old(saved)
      ensures ok ==> var i := FindIndex(old(tasks), id).value;
        tasks == old(tasks)[i := ApplyPatch(old(tasks)[i], patch)] && saved == Some(tasks)
      ensures UniqueIds(old(tasks)) ==> UniqueIds(tasks)
      ensures AllConsistent(old(tasks)) ==> AllConsistent(tasks)
    {
      var found := FindIndex(tasks, id);
      if found.None? {
        return false;
      }
      var i := found.value;
      ReplaceKeeps(tasks, i, ApplyPatch(tasks[i], patch), nextId);
      tasks := tasks[i := ApplyPatch(tasks[i], patch)];
      saved := Some(tasks);
      ok := true;
    }

    /** `createRecurringTask` (script.js:169-205): the next occurrence, numbered
        by the counter, goes in front. */
    method CreateRecurringTask(original: Task, now: int, calendar: (Pattern, int) -> int)
      requires Valid()
      modifies this`tasks, this`nextId
      ensures Valid()
      ensures tasks == [Spawn(original, old(nextId), now, calendar)] + old(tasks)
      ensures nextId == old(nextId) + 1
      ensures UniqueIds(old(tasks)) ==> UniqueIds(tasks)
      ensures AllConsistent(old(tasks)) ==> AllConsistent(tasks)
    {
      Push(Spawn(original, nextId, now, calendar));
    }

    /** `toggleTask` (script.js:148-167) with the list saved after a recurring
        task spawns its next occurrence too: an unknown id changes nothing;
        otherwise the first task with that id flips, a completed recurring
        task gets its clone in front, and the list is saved. */
    method ToggleTask(id: int, now: int, calendar: (Pattern, int) -> int) returns (ok: bool)
      requires Valid()
      modifies this`tasks, this`nextId, this`saved
      ensures Valid()
      ensures ok <==> FindIndex(old(tasks), id).Some?
      ensures !ok ==> tasks == old(tasks) && nextId == old(nextId) && saved == old(saved)
      ensures ok ==> var i := FindIndex(old(tasks), id).value;
        && tasks == ToggleAt(old(tasks), i, old(nextId), now, calendar)
        && nextId == old(nextId) + (if Spawns(old(tasks)[i]) then 1 else 0)
        && saved == Some(tasks)
      ensures UniqueIds(old(tasks)) ==> UniqueIds(tasks)
      ensures AllConsistent(old(tasks)) ==> AllConsistent(tasks)
    {
      var found := FindIndex(tasks, id);
      if found.None? {
        return false;
      }
      var i := found.value;
      ToggleAtKeeps(tasks, i, nextId, now, calendar);
      var t := Toggled(tasks[i], now);
      ReplaceKeeps(tasks, i, t, nextId);
      tasks := tasks[i := t];
      if t.completed && t.recurring {
        CreateRecurringTask(t, now, calendar);
      }
      saved := Some(tasks);
      ok := true;
    }

    /** `toggleSubtask` (script.js:207-215): an unknown task id or a subtask
        index out of range changes nothing; otherwise that subtask flips and
        the list is saved. */
    method ToggleSubtask(id: int, index: int) returns (ok: bool)
      requires Valid()
      modifies this`tasks, this`saved
      ensures Valid()
      ensures ok <==> FindIndex(old(tasks), id).Some? && 0 <= index < |old(tasks)[FindIndex(old(tasks), id).value].subtasks|
      ensures !ok ==> tasks == old(tasks) && saved == old(saved)
      ensures ok ==> var i := FindIndex(old(tasks), id).value;
        tasks == old(tasks)[i := FlipSubtask(old(tasks)[i], index)] && saved == Some(tasks)
      ensures UniqueIds(old(tasks)) ==> UniqueIds(tasks)
      ensures AllConsistent(old(tasks)) ==> AllConsistent(tasks)
    {
      var found := FindIndex(tasks, id);
      if found.None? {
        return false;
      }
      var i := found.value;
      if !(0 <= index < |tasks[i].subtasks|) {
        return false;
      }
      ReplaceKeeps(tasks, i, FlipSubtask(tasks[i], index), nextId);
      tasks := tasks[i := FlipSubtask(tasks[i], index)];
      saved := Some(tasks);
      ok := true;
    }

    /** `deleteTask` (script.js:217-227): an unknown id changes nothing;
        otherwise the first task with that id is removed, the id leaves the
        selection, and the list is saved. */
    method DeleteTask(id: int) returns (ok: bool)
      requires Valid()
      modifies this`tasks, this`selected, this`saved
      ensures Valid()
      ensures ok <==> FindIndex(old(tasks), id).Some?
      ensures !ok ==> tasks == old(tasks) && selected == old(selected) && saved == old(saved)
      ensures ok ==> var i := FindIndex(old(tasks), id).value;
        && tasks == old(tasks)[..i] + old(tasks)[i + 1..]
        && selected == old(selected) - {id}
        && saved == Some(tasks)
      ensures ok && UniqueIds(old(tasks)) ==> forall t :: t in tasks ==> t.id != id
      ensures UniqueIds(old(tasks)) ==> UniqueIds(tasks)
      ensures AllConsistent(old(tasks)) ==> AllConsistent(tasks)
    {
      var found := FindIndex(tasks, id);
      if found.None? {
        return false;
      }
      var i := found.value;
      RemoveKeeps(tasks, i, nextId);
      tasks := tasks[..i] + tasks[i + 1..];
      selected := selected - {id};
      saved := Some(tasks);
      ok := true;
    }

    /** `deleteSelectedTasks` (script.js:229-242): with nothing selected
        nothing changes; otherwise every selected task goes, the selection is
        cleared and the list is saved. */
    method DeleteSelectedTasks()
      requires Valid()
      modifies this`tasks, this`selected, this`saved
      ensures Valid()
      ensures old(selected) == {} ==> tasks == old(tasks) && selected == {} && saved == old(saved)
      ensures old(selected) != {} ==>
        && tasks == Unselected(old(tasks), old(selected))
        && selected == {}
        && saved == Some(tasks)
      ensures UniqueIds(old(tasks)) ==> UniqueIds(tasks)
      ensures AllConsistent(old(tasks)) ==> AllConsistent(tasks)
    {
      if selected == {} {
        return;
      }
      tasks := Unselected(tasks, selected);
      selected := {};
      saved := Some(tasks);
    }

    /** `clearCompletedTasks` (script.js:244-257): with no completed task
        nothing changes, the selection included; otherwise the completed
        tasks go, the selection is cleared and the list is saved. */
    method ClearCompletedTasks()
      requires Valid()
      modifies this`tasks, this`selected, this`saved
      ensures Valid()
      ensures (forall k :: 0 <= k < |old(tasks)| ==> !old(tasks)[k].completed) ==>
        tasks == old(tasks) && selected == old(selected) && saved == old(saved)
      ensures (exists k :: 0 <= k < |old(tasks)| && old(tasks)[k].completed) ==>
        && tasks == Incomplete(old(tasks))
        && selected == {}
        && saved == Some(tasks)
      ensures forall k :: 0 <= k < |tasks| ==> !tasks[k].completed
      ensures UniqueIds(old(tasks)) ==> UniqueIds(tasks)
      ensures AllConsistent(old(tasks)) ==> AllConsistent(tasks)
    {
      if forall k | 0 <= k < |tasks| :: !tasks[k].completed {
        return;
      }
      tasks := Incomplete(tasks);
      selected := {};
      saved := Some(tasks);
    }

    /** `setFilter` (script.js:332-336): the new filter, with the selection cleared. */
    method SetFilter(f: Selector)
      modifies this`currentFilter, this`selected
      ensures currentFilter == f && selected == {}
    {
      currentFilter := f;
      selected := {};
    }

    /** `setSearchQuery` (script.js:338-342): the new search text, with the selection cleared. */
    method SetSearchQuery(query: string)
      modifies this`searchQuery, this`selected
      ensures searchQuery == query && selected == {}
    {
      searchQuery := query;
      selected := {};
    }

    /** `toggleTaskSelection` (script.js:345-352): a selected id leaves the
        selection, any other id joins it; toggling twice restores it. */
    method ToggleTaskSelection(id: int)
      modifies this`selected
      ensures id in old(selected) ==> selected == old(selected) - {id}
      ensures id !in old(selected) ==> selected == old(selected) + {id}
      ensures id in selected <==> id !in old(selected)
      ensures selected - {id} == old(selected) - {id}
    {
      if id in selected {
        selected := selected - {id};
      } else {
        selected := selected + {id};
      }
    }

    /** `selectAllVisibleTasks` (script.js:354-366): when every shown task is
        selected they are all deselected, otherwise they are all selected;
        ids of tasks not shown keep their state. */
    method SelectAllVisibleTasks(now: int, startOfToday: int)
      modifies this`selected
      ensures var shown := IdsOf(Visible(now, startOfToday));
        && (shown <= old(selected) ==> selected == old(selected) - shown)
        && (!(shown <= old(selected)) ==> selected == old(selected) + shown)
    {
      var visible := Visible(now, startOfToday);
      var allSelected := forall k | 0 <= k < |visible| :: visible[k].id in selected;
      AllSelected(visible, selected);
      MarkEach(visible, !allSelected);
    }

    /** The `forEach` of `selectAllVisibleTasks`: every id of `ts` is added
        to the selection, or every one is removed from it. */
    method MarkEach(ts: seq<Task>, add: bool)
      modifies this`selected
      ensures add ==> selected == old(selected) + IdsOf(ts)
      ensures !add ==> selected == old(selected) - IdsOf(ts)
    {
      var i := 0;
      while i < |ts|
        invariant 0 <= i <= |ts|
        invariant add ==> selected == old(selected) + IdsOf(ts[..i])
        invariant !add ==> selected == old(selected) - IdsOf(ts[..i])
      {
        IdsOfSnoc(ts, i);
        if add {
          selected := selected + {ts[i].id};
        } else {
          selected := selected - {ts[i].id};
        }
        i := i + 1;
      }
      assert ts[..|ts|] == ts;
    }
  }

  // ----- toggleTask as written (script.js:148-167 with script.js:204) -----

  /** The part of a `TaskManager` that `toggleTask` touches. */
  datatype Snapshot = Snapshot(tasks: seq<Task>, nextId: int, saved: Option<seq<Task>>)

  /** How a call ends: it returns its boolean, or an exception escapes it. */
  datatype Outcome = Returned(found: bool) | Threw

  /** `toggleTask` as written: after `createRecurringTask` has put the clone in
      front and advanced the counter, its closing message calls
      `this.formatDate`, a method `TaskManager` does not have (script.js:204).
      That call throws, so `saveTasks` (script.js:160) is skipped. */
  function ToggleAsWritten(s: Snapshot, id: int, now: int, calendar: (Pattern, int) -> int): (r: (Outcome, Snapshot))
    ensures FindIndex(s.tasks, id).None? ==> r == (Returned(false), s)
    ensures r.0 == Threw ==> r.1.saved == s.saved
  {
    match FindIndex(s.tasks, id)
    case None => (Returned(false), s)
    case Some(i) =>
      var after := ToggleAt(s.tasks, i, s.nextId, now, calendar);
      if Spawns(s.tasks[i]) then (Threw, Snapshot(after, s.nextId + 1, s.saved))
      else (Returned(true), Snapshot(after, s.nextId, Some(after)))
  }

  /** Completing a recurring task in a saved list throws and leaves storage
      behind the list in memory: the clone and the completion are not saved. */
  lemma RecurringToggleNotSaved(s: Snapshot, id: int, now: int, calendar: (Pattern, int) -> int)
    requires s.saved == Some(s.tasks)
    requires FindIndex(s.tasks, id).Some? && Spawns(s.tasks[FindIndex(s.tasks, id).value])
    ensures ToggleAsWritten(s, id, now, calendar).0 == Threw
    ensures ToggleAsWritten(s, id, now, calendar).1.saved != Some(ToggleAsWritten(s, id, now, calendar).1.tasks)
  {
    var i := FindIndex(s.tasks, id).value;
    ToggleAtSpawn(s.tasks, i, s.nextId, now, calendar);
  }

  /** Every other toggle saves the list it leaves in memory. */
  lemma OtherTogglesSaved(s: Snapshot, id: int, now: int, calendar: (Pattern, int) -> int)
    requires FindIndex(s.tasks, id).Some? && !Spawns(s.tasks[FindIndex(s.tasks, id).value])
    ensures ToggleAsWritten(s, id, now, calendar).0 == Returned(true)
    ensures ToggleAsWritten(s, id, now, calendar).1.saved == Some(ToggleAsWritten(s, id, now, calendar).1.tasks)
  {
  }
}
