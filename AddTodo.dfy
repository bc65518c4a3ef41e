/**
 * The add-task form: the blank-title check, the session check, the record it
 * inserts, and which form state survives a failed or a successful insert.
 */
module AddTodo {
  import opened Wrappers
  import opened Text
  import opened Records
  import TodoList

  /** The alerts `handleAdd` can raise; `NoNotice` is the silent success. */
  datatype Notice = NoNotice | TitleRequired | SignInRequired | InsertFailed

  /** The store's answer to the insert: rejected, or accepted with the id and
      creation time it generated. */
  datatype InsertReply = Rejected | Inserted(id: Id, createdAt: Time)

  /** The object passed to `insert`: `user_id`, `title`, `goal_week`, `goal_day`. */
  datatype NewTodo = NewTodo(userId: Id, title: string, goalWeek: Option<string>, goalDay: Option<string>)

  /** The inserted object: the title trimmed, each goal trimmed or null when blank. */
  function Payload(userId: Id, title: string, goalWeek: string, goalDay: string): (n: NewTodo)
    ensures n.userId == userId
    ensures IsTrimmed(n.title) && (n.title == [] <==> IsBlank(title))
    ensures exists i, j ::
      0 <= i <= j <= |title| && n.title == title[i..j] && IsBlank(title[..i]) && IsBlank(title[j..])
    ensures n.goalWeek == TrimOrNull(goalWeek) && n.goalDay == TrimOrNull(goalDay)
    ensures IsNormal(n.goalWeek) && (n.goalWeek.None? <==> IsBlank(goalWeek))
    ensures IsNormal(n.goalDay) && (n.goalDay.None? <==> IsBlank(goalDay))
  {
    TrimEmptyIffBlank(title);
    NewTodo(userId, Trim(title), TrimOrNull(goalWeek), TrimOrNull(goalDay))
  }

  /** The row the store files for an insert: the columns the object leaves out
      (`started_at`, `ended_at`, `report` and the break columns) stay null. */
  function StoredRow(n: NewTodo, id: Id, createdAt: Time): (r: Row)
    ensures r.userId == n.userId && r.createdAt == createdAt && r.todo.id == id
    ensures r.todo.title == n.title && r.todo.goalWeek == n.goalWeek && r.todo.goalDay == n.goalDay
    ensures r.todo.report.None? && r.todo.startedAt.None? && r.todo.endedAt.None?
    ensures r.todo.breakStartedAt.None? && r.todo.breakEndedAt.None?
  {
    Row(n.userId, createdAt, Todo(id, n.title, n.goalWeek, n.goalDay, None, None, None, None, None))
  }

  /** A freshly added task is normalised, idle (only Start is offered for
      the timer) and satisfies the lifecycle invariants. */
  lemma NewTaskIsIdle(userId: Id, title: string, goalWeek: string, goalDay: string, id: Id, createdAt: Time)
    requires !IsBlank(title)
    ensures var t := StoredRow(Payload(userId, title, goalWeek, goalDay), id, createdAt).todo;
      && t.title != [] && IsNormalTodo(t)
      && TodoList.IsConsistent(t) && !TodoList.IsRunning(t)
      && TodoList.Offered(t, false) == {TodoList.Start, TodoList.Edit, TodoList.Delete}
  {
  }

  /** The form's state: the three inputs, `loading`, and how often `onAdded`
      has been called. */
  class AddForm {
    var title: string
    var goalWeek: string
    var goalDay: string
    var loading: bool
    var addedCalls: nat

    constructor ()
      ensures title == "" && goalWeek == "" && goalDay == ""
      ensures !loading && addedCalls == 0
    {
      title, goalWeek, goalDay := "", "", "";
      loading, addedCalls := false, 0;
    }

    /** `handleAdd`. The button is disabled while loading, so it starts with
        `loading` false, and every path leaves it false. */
    method HandleAdd(session: Session, table: Table, reply: InsertReply) returns (notice: Notice)
      requires table.Valid() && !loading
      requires reply.Inserted? ==> reply.id !in table.rows
      modifies this, table
      ensures table.Valid() && !loading
      ensures IsBlank(old(title)) ==> notice == TitleRequired && unchanged(this) && unchanged(table)
      ensures !IsBlank(old(title)) && !(session.SignedIn? && reply.Inserted?) ==>
        && notice == (if session.SignedOut? then SignInRequired else InsertFailed)
        && table.rows == old(table.rows)
        && title == old(title) && goalWeek == old(goalWeek) && goalDay == old(goalDay)
        && addedCalls == old(addedCalls)
      ensures !IsBlank(old(title)) && session.SignedIn? && reply.Inserted? ==>
        && notice == NoNotice
        && table.rows == old(table.rows)[reply.id :=
             StoredRow(Payload(session.userId, old(title), old(goalWeek), old(goalDay)), reply.id, reply.createdAt)]
        && title == "" && goalWeek == "" && goalDay == ""
        && addedCalls == old(addedCalls) + 1
    {
      TrimEmptyIffBlank(title);
      if Trim(title) == [] {
        return TitleRequired;
      }
      notice := Submit(session, table, reply);
    }

    /** The part of `handleAdd` after the title check. */
    method Submit(session: Session, table: Table, reply: InsertReply) returns (notice: Notice)
      requires table.Valid() && !loading
      requires reply.Inserted? ==> reply.id !in table.rows
      modifies this`title, this`goalWeek, this`goalDay, this`loading, this`addedCalls, table
      ensures table.Valid() && !loading
      ensures !(session.SignedIn? && reply.Inserted?) ==>
        && notice == (if session.SignedOut? then SignInRequired else InsertFailed)
        && table.rows == old(table.rows)
        && title == old(title) && goalWeek == old(goalWeek) && goalDay == old(goalDay)
        && addedCalls == old(addedCalls)
      ensures session.SignedIn? && reply.Inserted? ==>
        && notice == NoNotice
        && table.rows == old(table.rows)[reply.id :=
             StoredRow(Payload(session.userId, old(title), old(goalWeek), old(goalDay)), reply.id, reply.createdAt)]
        && title == "" && goalWeek == "" && goalDay == ""
        && addedCalls == old(addedCalls) + 1
    {
      loading := true;
      if session.SignedOut? {
        loading := false;
        return SignInRequired;
      }
      loading := false;
      if reply.Rejected? {
        return InsertFailed;
      }
      var payload := Payload(session.userId, title, goalWeek, goalDay);
      table.Insert(StoredRow(payload, reply.id, reply.createdAt));
      title, goalWeek, goalDay := "", "", "";
      addedCalls := addedCalls + 1;
      notice := NoNotice;
    }
  }
}
