/**
 * The inline edit form: it starts from the task's values, sends a patch of
 * the four text columns normalised, and calls `onUpdated` only on success.
 */
module EditTodo {
  import opened Text
  import opened Records
  import TodoList

  /** The four inputs of the form. */
  datatype FormState = FormState(title: string, goalWeek: string, goalDay: string, report: string)

  /** The initial `useState` values: a null field is shown as "". */
  function InitialForm(t: Todo): (f: FormState)
    ensures f.title == t.title
    ensures IsNormal(t.goalWeek) ==> TrimOrNull(f.goalWeek) == t.goalWeek
    ensures IsNormal(t.goalDay) ==> TrimOrNull(f.goalDay) == t.goalDay
    ensures IsNormal(t.report) ==> TrimOrNull(f.report) == t.report
  {
    assert IsNormal(t.goalWeek) ==> TrimOrNull(OrEmpty(t.goalWeek)) == t.goalWeek by {
      if IsNormal(t.goalWeek) { NormalRoundTrip(t.goalWeek); }
    }
    assert IsNormal(t.goalDay) ==> TrimOrNull(OrEmpty(t.goalDay)) == t.goalDay by {
      if IsNormal(t.goalDay) { NormalRoundTrip(t.goalDay); }
    }
    assert IsNormal(t.report) ==> TrimOrNull(OrEmpty(t.report)) == t.report by {
      if IsNormal(t.report) { NormalRoundTrip(t.report); }
    }
    FormState(t.title, OrEmpty(t.goalWeek), OrEmpty(t.goalDay), OrEmpty(t.report))
  }

  /** The object `handleUpdate` passes to `update`: the title trimmed (even to
      ""), the other three trimmed or null when blank, and no other column. */
  function UpdatePatch(f: FormState): (p: Patch)
    ensures forall t {:trigger Apply(t, p)} ::
      Apply(t, p) == t.(title := Trim(f.title), goalWeek := TrimOrNull(f.goalWeek),
                        goalDay := TrimOrNull(f.goalDay), report := TrimOrNull(f.report))
    ensures p.startedAt.Keep? && p.endedAt.Keep? && p.breakStartedAt.Keep? && p.breakEndedAt.Keep?
  {
    Untouched.(title := Put(Trim(f.title)), goalWeek := Put(TrimOrNull(f.goalWeek)),
               goalDay := Put(TrimOrNull(f.goalDay)), report := Put(TrimOrNull(f.report)))
  }

  /** Editing does not reject a blank title: it is sent as "". */
  lemma BlankTitleIsSentEmpty(f: FormState)
    requires IsBlank(f.title)
    ensures UpdatePatch(f).title == Put("")
  {
    TrimEmptyIffBlank(f.title);
  }

  /** Whatever the form holds, the saved task is normalised. */
  lemma SavedTaskIsNormal(t: Todo, f: FormState)
    ensures IsNormalTodo(Apply(t, UpdatePatch(f)))
  {
    TrimOrNullIsNormal(f.goalWeek);
    TrimOrNullIsNormal(f.goalDay);
    TrimOrNullIsNormal(f.report);
  }

  /** Opening the editor on a normalised task and saving without changes
      writes back exactly the task's own values. */
  lemma UnchangedSaveRoundTrip(t: Todo)
    requires IsNormalTodo(t)
    ensures Apply(t, UpdatePatch(InitialForm(t))) == t
  {
    TrimOfTrimmed(t.title);
    NormalRoundTrip(t.goalWeek);
    NormalRoundTrip(t.goalDay);
    NormalRoundTrip(t.report);
  }

  /** Saving a second time without changes is a no-op. */
  lemma SavingAgainChangesNothing(t: Todo, f: FormState)
    ensures var u := Apply(t, UpdatePatch(f));
      Apply(u, UpdatePatch(InitialForm(u))) == u
  {
    SavedTaskIsNormal(t, f);
    UnchangedSaveRoundTrip(Apply(t, UpdatePatch(f)));
  }

  /** An edit leaves the timer state alone: the same buttons are offered and
      the lifecycle invariants still hold. */
  lemma EditKeepsTimerState(t: Todo, f: FormState, editing: bool)
    ensures TodoList.Offered(Apply(t, UpdatePatch(f)), editing) == TodoList.Offered(t, editing)
    ensures TodoList.IsConsistent(Apply(t, UpdatePatch(f))) <==> TodoList.IsConsistent(t)
  {
  }

  /** The alert `handleUpdate` raises; `NoNotice` is the silent success. */
  datatype Notice = NoNotice | UpdateFailed

  /** The form's state for one task, and how often `onUpdated` has been called. */
  class EditForm {
    const todo: Todo
    var title: string
    var goalWeek: string
    var goalDay: string
    var report: string
    var loading: bool
    var updatedCalls: nat

    function Fields(): FormState
      reads this
    {
      FormState(title, goalWeek, goalDay, report)
    }

    constructor (todo: Todo)
      ensures this.todo == todo && Fields() == InitialForm(todo)
      ensures !loading && updatedCalls == 0
    {
      this.todo := todo;
      title := todo.title;
      goalWeek := OrEmpty(todo.goalWeek);
      goalDay := OrEmpty(todo.goalDay);
      report := OrEmpty(todo.report);
      loading, updatedCalls := false, 0;
    }

    /** `handleUpdate`: `fails` is the store's verdict on the update. */
    method HandleUpdate(table: Table, fails: bool) returns (notice: Notice)
      requires table.Valid() && !loading
      modifies this`loading, this`updatedCalls, table
      ensures table.Valid() && !loading
      ensures table.rows == if fails then old(table.rows) else PatchedRows(old(table.rows), todo.id, UpdatePatch(Fields()))
      ensures notice == if fails then UpdateFailed else NoNotice
      ensures updatedCalls == old(updatedCalls) + (if fails then 0 else 1)
    {
      loading := true;
      if !fails {
        table.Update(todo.id, UpdatePatch(Fields()));
      }
      loading := false;
      if fails {
        notice := UpdateFailed;
      } else {
        updatedCalls := updatedCalls + 1;
        notice := NoNotice;
      }
    }
  }
}
