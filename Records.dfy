/**
 * The `todos` collection of the hosted store, as seen by the client: the
 * record type, the column patches `update(...).eq("id", id)` sends, and the
 * collection itself as a map from record id to row. Timestamps, which the
 * client writes as ISO strings, are milliseconds since the epoch here.
 */
module Records {
  import opened Wrappers
  import opened Text

  type Id = string

  /** Milliseconds since the epoch, as `Date.getTime()` reports them. */
  type Time = int

  /** The auth provider's answer to "who is signed in". */
  datatype Session = SignedOut | SignedIn(userId: Id)

  /** A store query either fails or returns its rows. */
  datatype Reply<T> = Failed | Rows(rows: seq<T>)

  /** The columns the task list selects; null columns are `None`. */
  datatype Todo = Todo(
    id: Id,
    title: string,
    goalWeek: Option<string>,
    goalDay: Option<string>,
    startedAt: Option<Time>,
    endedAt: Option<Time>,
    report: Option<string>,
    breakStartedAt: Option<Time>,
    breakEndedAt: Option<Time>)

  /** A stored row adds the owner and the creation time, which the store fills in. */
  datatype Row = Row(userId: Id, createdAt: Time, todo: Todo)

  /** A task whose text fields are as the forms write them: a trimmed title and
      optional fields that are null or non-empty and trimmed. */
  predicate IsNormalTodo(t: Todo) {
    IsTrimmed(t.title) && IsNormal(t.goalWeek) && IsNormal(t.goalDay) && IsNormal(t.report)
  }

  /** One column of an update: left out of the patch object, or set to a value. */
  datatype Field<T> = Keep | Put(value: T)

  function Pick<T>(f: Field<T>, current: T): (r: T)
    ensures f.Keep? ==> r == current
    ensures f.Put? ==> r == f.value
  {
    match f
    case Keep => current
    case Put(v) => v
  }

  /** The object passed to `update`: every column but the id may appear in it. */
  datatype Patch = Patch(
    title: Field<string>,
    goalWeek: Field<Option<string>>,
    goalDay: Field<Option<string>>,
    report: Field<Option<string>>,
    startedAt: Field<Option<Time>>,
    endedAt: Field<Option<Time>>,
    breakStartedAt: Field<Option<Time>>,
    breakEndedAt: Field<Option<Time>>)

  /** The empty patch `{}`. */
  const Untouched: Patch := Patch(Keep, Keep, Keep, Keep, Keep, Keep, Keep, Keep)

  /** The record after the store applies `p` to it. */
  function Apply(t: Todo, p: Patch): (r: Todo)
    ensures r.id == t.id
    ensures p == Untouched ==> r == t
    ensures p.startedAt.Keep? && p.endedAt.Keep? ==> r.startedAt == t.startedAt && r.endedAt == t.endedAt
    ensures p.breakStartedAt.Keep? && p.breakEndedAt.Keep? ==>
      r.breakStartedAt == t.breakStartedAt && r.breakEndedAt == t.breakEndedAt
  {
    Todo(t.id, Pick(p.title, t.title), Pick(p.goalWeek, t.goalWeek), Pick(p.goalDay, t.goalDay),
         Pick(p.startedAt, t.startedAt), Pick(p.endedAt, t.endedAt), Pick(p.report, t.report),
         Pick(p.breakStartedAt, t.breakStartedAt), Pick(p.breakEndedAt, t.breakEndedAt))
  }

  /** The collection after `update(p).eq("id", id)`: at most the one row changes,
      and an id that matches nothing changes nothing. */
  function PatchedRows(rows: map<Id, Row>, id: Id, p: Patch): (r: map<Id, Row>)
    ensures r.Keys == rows.Keys
    ensures forall k :: k in rows && k != id ==> r[k] == rows[k]
    ensures id in rows ==> r[id].userId == rows[id].userId && r[id].createdAt == rows[id].createdAt
    ensures id in rows ==> r[id].todo.id == rows[id].todo.id
    ensures id in rows ==> r[id] == rows[id].(todo := Apply(rows[id].todo, p))
  {
    if id in rows then rows[id := rows[id].(todo := Apply(rows[id].todo, p))] else rows
  }

  /** The remote `todos` collection. Its methods model requests that succeed;
      a failed request changes nothing, and callers branch on the failure. */
  class Table {
    var rows: map<Id, Row>

    /** Each row is filed under its own id. */
    ghost predicate Valid()
      reads this
    {
      forall id :: id in rows ==> rows[id].todo.id == id
    }

    constructor ()
      ensures Valid() && rows == map[]
    {
      rows := map[];
    }

    /** `update(p).eq("id", id)`. */
    method Update(id: Id, p: Patch)
      requires Valid()
      modifies this
      ensures Valid()
      ensures rows == PatchedRows(old(rows), id, p)
    {
      rows := PatchedRows(rows, id, p);
    }

    /** `delete().eq("id", id)`. */
    method Delete(id: Id)
      requires Valid()
      modifies this
      ensures Valid()
      ensures rows == old(rows) - {id}
    {
      rows := rows - {id};
    }

    /** `insert([row])`, with the id and creation time the store generated. */
    method Insert(row: Row)
      requires Valid()
      requires row.todo.id !in rows
      modifies this
      ensures Valid()
      ensures rows == old(rows)[row.todo.id := row]
    {
      rows := rows[row.todo.id := row];
    }
  }
}
