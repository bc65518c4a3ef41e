/**
 * The task list: which timer buttons each task offers, the patches the four
 * timer handlers send, deletion behind a confirmation, the refetch that
 * follows every successful request, and the client-side pagination.
 */
module TodoList {
  import opened Wrappers
  import opened Records

  // ---------------------------------------------------------------------------
  // Button guards

  datatype Action = Start | Stop | BreakStart | BreakEnd | Edit | Delete

  /** The four actions that patch the timestamps. */
  predicate IsTimerAction(a: Action) {
    a.Start? || a.Stop? || a.BreakStart? || a.BreakEnd?
  }

  /** `t.started_at && !t.ended_at`. */
  predicate IsRunning(t: Todo) {
    t.startedAt.Some? && t.endedAt.None?
  }

  /** `t.break_started_at && !t.break_ended_at`. */
  predicate IsOnBreak(t: Todo) {
    t.breakStartedAt.Some? && t.breakEndedAt.None?
  }

  /** The buttons a list row shows; a row being edited shows the edit form instead. */
  function Offered(t: Todo, editing: bool): (r: set<Action>)
    ensures Stop in r <==> !editing && IsRunning(t)
    ensures BreakEnd in r <==> !editing && IsRunning(t) && IsOnBreak(t)
    ensures BreakStart in r <==> !editing && IsRunning(t) && !IsOnBreak(t)
    ensures Start in r <==> !editing && !IsRunning(t)
    ensures Edit in r <==> !editing
    ensures Delete in r <==> !editing
  {
    if editing then {}
    else if IsRunning(t) then {Stop, if IsOnBreak(t) then BreakEnd else BreakStart, Edit, Delete}
    else {Start, Edit, Delete}
  }

  /** A row not being edited offers exactly one of Start and Stop, and while
      running exactly one of the two break controls. */
  lemma OfferedControlsAreExclusive(t: Todo)
    ensures var r := Offered(t, false);
      && (Start in r <==> Stop !in r)
      && (Stop in r <==> (BreakStart in r <==> BreakEnd !in r))
      && (Start in r ==> BreakStart !in r && BreakEnd !in r)
  {
  }

  // ---------------------------------------------------------------------------
  // Timer patches

  /** `{ started_at: now, ended_at: null }`. */
  function StartPatch(now: Time): (p: Patch)
    ensures forall t {:trigger Apply(t, p)} :: Apply(t, p) == t.(startedAt := Some(now), endedAt := None)
  {
    Untouched.(startedAt := Put(Some(now)), endedAt := Put(None))
  }

  /** `{ ended_at: now }`. */
  function StopPatch(now: Time): (p: Patch)
    ensures forall t {:trigger Apply(t, p)} :: Apply(t, p) == t.(endedAt := Some(now))
  {
    Untouched.(endedAt := Put(Some(now)))
  }

  /** `{ break_started_at: now, break_ended_at: null }`. */
  function BreakStartPatch(now: Time): (p: Patch)
    ensures forall t {:trigger Apply(t, p)} :: Apply(t, p) == t.(breakStartedAt := Some(now), breakEndedAt := None)
  {
    Untouched.(breakStartedAt := Put(Some(now)), breakEndedAt := Put(None))
  }

  /** `{ break_ended_at: now }`. */
  function BreakEndPatch(now: Time): (p: Patch)
    ensures forall t {:trigger Apply(t, p)} :: Apply(t, p) == t.(breakEndedAt := Some(now))
  {
    Untouched.(breakEndedAt := Put(Some(now)))
  }

  function TimerPatch(a: Action, now: Time): Patch
    requires IsTimerAction(a)
  {
    match a
    case Start => StartPatch(now)
    case Stop => StopPatch(now)
    case BreakStart => BreakStartPatch(now)
    case BreakEnd => BreakEndPatch(now)
  }

  // ---------------------------------------------------------------------------
  // The lifecycle the guards enforce

  /** Ended implies started, break started implies started, break ended
      implies break started. */
  predicate IsConsistent(t: Todo) {
    && (t.endedAt.Some? ==> t.startedAt.Some?)
    && (t.breakStartedAt.Some? ==> t.startedAt.Some?)
    && (t.breakEndedAt.Some? ==> t.breakStartedAt.Some?)
  }

  /** Every timestamp of `t` lies at or before `now`. */
  predicate NotAfter(t: Todo, now: Time) {
    && (t.startedAt.Some? ==> t.startedAt.value <= now)
    && (t.endedAt.Some? ==> t.endedAt.value <= now)
    && (t.breakStartedAt.Some? ==> t.breakStartedAt.value <= now)
    && (t.breakEndedAt.Some? ==> t.breakEndedAt.value <= now)
  }

  /** A closed work interval or break does not end before it begins. */
  predicate IsChronological(t: Todo) {
    && (t.endedAt.Some? ==> t.startedAt.Some? && t.startedAt.value <= t.endedAt.value)
    && (t.breakEndedAt.Some? ==> t.breakStartedAt.Some? && t.breakStartedAt.value <= t.breakEndedAt.value)
  }

  /** Any offered timer action keeps a consistent task consistent. */
  lemma OfferedActionKeepsConsistent(t: Todo, a: Action, now: Time)
    requires IsConsistent(t) && IsTimerAction(a) && a in Offered(t, false)
    ensures IsConsistent(Apply(t, TimerPatch(a, now)))
  {
  }

  /** With a clock that does not run backwards, an offered timer action keeps
      every closed interval in order. */
  lemma OfferedActionKeepsChronology(t: Todo, a: Action, now: Time)
    requires IsChronological(t) && NotAfter(t, now) && IsTimerAction(a) && a in Offered(t, false)
    ensures IsChronological(Apply(t, TimerPatch(a, now))) && NotAfter(Apply(t, TimerPatch(a, now)), now)
  {
  }

  /** The guard is what keeps "ended implies started": stopping a task that was
      never started, which the list never offers, would break it. */
  lemma UnguardedStopBreaksConsistency(now: Time)
    ensures var t := Todo("id", "title", None, None, None, None, None, None, None);
      IsConsistent(t) && Stop !in Offered(t, false) && !IsConsistent(Apply(t, StopPatch(now)))
  {
  }

  /** Stop is offered during a break and does not close it: a stopped task can
      keep an open break. */
  lemma StopDuringBreakLeavesBreakOpen(t: Todo, now: Time)
    requires IsRunning(t) && IsOnBreak(t)
    ensures Stop in Offered(t, false)
    ensures !IsRunning(Apply(t, StopPatch(now))) && IsOnBreak(Apply(t, StopPatch(now)))
  {
  }

  // ---------------------------------------------------------------------------
  // The lifecycle in the store

  /** Every task the list shows is its store row's record, as fetched. */
  ghost predicate InSync(list: seq<Todo>, rows: map<Id, Row>) {
    forall i :: 0 <= i < |list| ==> list[i].id in rows && rows[list[i].id].todo == list[i]
  }

  /** Every stored task satisfies the lifecycle implications. */
  ghost predicate ConsistentStore(rows: map<Id, Row>) {
    forall id :: id in rows ==> IsConsistent(rows[id].todo)
  }

  /** Every stored task has its intervals in order and no timestamp after `now`. */
  ghost predicate ChronologicalStore(rows: map<Id, Row>, now: Time) {
    forall id :: id in rows ==> IsChronological(rows[id].todo) && NotAfter(rows[id].todo, now)
  }

  /** Sending an offered timer action's patch for the store row a listed task
      came from keeps the whole store consistent, and with a clock that does
      not go back, chronological. */
  lemma OfferedActionKeepsStore(rows: map<Id, Row>, t: Todo, a: Action, now: Time)
    requires t.id in rows && rows[t.id].todo == t
    requires IsTimerAction(a) && a in Offered(t, false)
    ensures ConsistentStore(rows) ==> ConsistentStore(PatchedRows(rows, t.id, TimerPatch(a, now)))
    ensures ChronologicalStore(rows, now) ==> ChronologicalStore(PatchedRows(rows, t.id, TimerPatch(a, now)), now)
  {
    var r := PatchedRows(rows, t.id, TimerPatch(a, now));
    if ConsistentStore(rows) {
      OfferedActionKeepsConsistent(t, a, now);
      assert forall id :: id in r ==> IsConsistent(r[id].todo) by {
        forall id | id in r ensures IsConsistent(r[id].todo) {
          if id != t.id { assert r[id] == rows[id]; }
        }
      }
    }
    if ChronologicalStore(rows, now) {
      OfferedActionKeepsChronology(t, a, now);
      assert forall id :: id in r ==> IsChronological(r[id].todo) && NotAfter(r[id].todo, now) by {
        forall id | id in r ensures IsChronological(r[id].todo) && NotAfter(r[id].todo, now) {
          if id != t.id { assert r[id] == rows[id]; }
        }
      }
    }
  }

  /** Deleting any row keeps both store invariants, so the delete button
      needs no timer guard. */
  lemma DeleteKeepsStore(rows: map<Id, Row>, id: Id, now: Time)
    ensures ConsistentStore(rows) ==> ConsistentStore(rows - {id})
    ensures ChronologicalStore(rows, now) ==> ChronologicalStore(rows - {id}, now)
  {
  }

  // ---------------------------------------------------------------------------
  // Pagination

  /** `todosPerPage`. */
  const TodosPerPage: int := 5

  /** How `Array.prototype.slice` resolves an index into a list of length `n`:
      a negative index counts from the end, and the result is clamped to [0, n]. */
  function SliceIndex(k: int, n: nat): (r: nat)
    ensures r <= n
    ensures 0 <= k <= n ==> r == k
    ensures k > n ==> r == n
  {
    if k < 0 then (if n + k < 0 then 0 else n + k) else if k > n then n else k
  }

  /** `s.slice(start, end)`: a run of consecutive elements, exactly
      `s[start..end]` when both ends are in range, and empty when the end
      does not lie past the start. */
  function Slice<T>(s: seq<T>, start: int, end: int): (r: seq<T>)
    ensures 0 <= start <= end <= |s| ==> r == s[start..end]
    ensures exists lo, hi :: 0 <= lo <= hi <= |s| && r == s[lo..hi]
    ensures start <= end ==> |r| <= end - start
    ensures 0 <= end <= start ==> r == []
  {
    var lo := SliceIndex(start, |s|);
    var hi := SliceIndex(end, |s|);
    if lo < hi then s[lo..hi] else assert s[lo..lo] == []; []
  }

  /** `indexOfFirstTodo`: `currentPage * todosPerPage - todosPerPage`. A page
      starts where the one before it ends and spans `todosPerPage` indices. */
  function IndexOfFirst(page: int): (r: int)
    ensures r == IndexOfLast(page - 1)
    ensures IndexOfLast(page) - r == TodosPerPage
  {
    IndexOfLast(page) - TodosPerPage
  }

  /** `indexOfLastTodo`: `currentPage * todosPerPage`, the multiple of
      `todosPerPage` that counts `page` full pages. */
  function IndexOfLast(page: int): (r: int)
    ensures r % TodosPerPage == 0 && r / TodosPerPage == page
  {
    page * TodosPerPage
  }

  /** `currentTodos` for a given page: a run of at most `todosPerPage`
      consecutive elements. */
  function Page<T>(s: seq<T>, page: int): (r: seq<T>)
    ensures |r| <= TodosPerPage
    ensures exists lo, hi :: 0 <= lo <= hi <= |s| && r == s[lo..hi]
  {
    Slice(s, IndexOfFirst(page), IndexOfLast(page))
  }

  /** `Math.ceil(n / todosPerPage)`. */
  function TotalPages(n: nat): (r: nat)
    ensures TodosPerPage * (r - 1) < n <= TodosPerPage * r
  {
    (n + TodosPerPage - 1) / TodosPerPage
  }

  function Min(a: int, b: int): int {
    if a <= b then a else b
  }

  /** Page `page` holds the elements at indices 5(page - 1) up to
      min(5 page, n) - 1 in list order: at most five, exactly five before the
      last page, at least one on the last, none past it. */
  lemma PageContents<T>(s: seq<T>, page: int)
    requires page >= 1
    ensures Page(s, page) == s[Min(5 * (page - 1), |s|)..Min(5 * page, |s|)]
    ensures |Page(s, page)| <= 5
    ensures forall i :: 0 <= i < |Page(s, page)| ==> Page(s, page)[i] == s[5 * (page - 1) + i]
    ensures Page(s, page) == [] <==> page > TotalPages(|s|)
    ensures page < TotalPages(|s|) ==> |Page(s, page)| == 5
    ensures page == TotalPages(|s|) ==> 1 <= |Page(s, page)| <= 5
  {
    var n := |s|;
    assert IndexOfFirst(page) == 5 * (page - 1) && IndexOfLast(page) == 5 * page;
    var lo, hi := SliceIndex(5 * (page - 1), n), SliceIndex(5 * page, n);
    assert lo == Min(5 * (page - 1), n) && hi == Min(5 * page, n);
  }

  /** Pages `first` to `last`, one after another. */
  function PagesFrom<T>(s: seq<T>, first: int, last: int): seq<T>
    decreases last - first
  {
    if first > last then [] else Page(s, first) + PagesFrom(s, first + 1, last)
  }

  lemma {:induction false} PagesFromRest<T>(s: seq<T>, first: int)
    requires first >= 1 && 5 * (first - 1) <= |s|
    ensures PagesFrom(s, first, TotalPages(|s|)) == s[5 * (first - 1)..]
    decreases TotalPages(|s|) - first
  {
    var last := TotalPages(|s|);
    if first <= last {
      PageContents(s, first);
      if 5 * first <= |s| {
        PagesFromRest(s, first + 1);
        assert s[5 * (first - 1)..] == s[5 * (first - 1)..5 * first] + s[5 * first..];
      } else {
        assert first == last;
      }
    }
  }

  /** Whatever a page shows comes from the list. */
  lemma PageMember<T>(s: seq<T>, page: int, x: T)
    requires page >= 1 && x in Page(s, page)
    ensures x in s
  {
    PageContents(s, page);
    var k :| 0 <= k < |Page(s, page)| && Page(s, page)[k] == x;
    assert s[5 * (page - 1) + k] == x;
  }

  /** Concatenating pages 1 to `totalPages` gives back exactly the list. */
  lemma AllPagesConcatenate<T>(s: seq<T>)
    ensures PagesFrom(s, 1, TotalPages(|s|)) == s
  {
    PagesFromRest(s, 1);
  }

  /** In a list without repeated elements no element is on two pages. */
  lemma PagesAreDisjoint<T>(s: seq<T>, p: int, q: int, x: T)
    requires forall i, j :: 0 <= i < j < |s| ==> s[i] != s[j]
    requires 1 <= p && 1 <= q && p != q
    requires x in Page(s, p)
    ensures x !in Page(s, q)
  {
    PageContents(s, p);
    PageContents(s, q);
  }

  /** Pages keep list order: an earlier page, or an earlier slot on the same
      page, shows an element from earlier in the list. */
  lemma PagesKeepOrder<T>(s: seq<T>, p: int, i: int, q: int, j: int)
    requires 1 <= p <= q && 0 <= i < |Page(s, p)| && 0 <= j < |Page(s, q)|
    requires p < q || i < j
    ensures 5 * (p - 1) + i < 5 * (q - 1) + j < |s|
    ensures Page(s, p)[i] == s[5 * (p - 1) + i] && Page(s, q)[j] == s[5 * (q - 1) + j]
  {
    PageContents(s, p);
    PageContents(s, q);
  }

  // ---------------------------------------------------------------------------
  // Fetching

  /** What the store promises for `select(...).eq("user_id", uid)
      .order("created_at", { ascending: false })`: the user's rows, each once,
      newest-created first. */
  ghost predicate AnswersQuery(rows: map<Id, Row>, uid: Id, list: seq<Todo>) {
    && (forall i :: 0 <= i < |list| ==>
          list[i].id in rows && rows[list[i].id].userId == uid && rows[list[i].id].todo == list[i])
    && (forall id :: id in rows && rows[id].userId == uid ==> exists i :: 0 <= i < |list| && list[i].id == id)
    && (forall i, j :: 0 <= i < j < |list| ==> list[i].id != list[j].id)
    && (forall i, j :: 0 <= i < j < |list| && list[i].id in rows && list[j].id in rows ==>
          rows[list[i].id].createdAt >= rows[list[j].id].createdAt)
  }

  /** The list after `fetchTodos`: empty without a user, unchanged when the
      query fails, the query's rows otherwise. */
  function Refreshed(current: seq<Todo>, session: Session, reply: Reply<Todo>): (r: seq<Todo>)
    ensures session.SignedOut? ==> r == []
    ensures session.SignedIn? && reply.Failed? ==> r == current
    ensures session.SignedIn? && reply.Rows? ==> r == reply.rows
  {
    if session.SignedOut? then []
    else if reply.Failed? then current
    else reply.rows
  }

  /** On a fetched list the pages run newest-created first, within a page and
      from one page to the next. */
  lemma FetchedPagesNewestFirst(rows: map<Id, Row>, uid: Id, list: seq<Todo>, p: int, i: int, q: int, j: int)
    requires AnswersQuery(rows, uid, list)
    requires 1 <= p <= q && 0 <= i < |Page(list, p)| && 0 <= j < |Page(list, q)|
    requires p < q || i < j
    ensures Page(list, p)[i].id in rows && Page(list, q)[j].id in rows
    ensures rows[Page(list, p)[i].id].createdAt >= rows[Page(list, q)[j].id].createdAt
  {
    PagesKeepOrder(list, p, i, q, j);
  }

  /** On a fetched list no task appears on two pages. */
  lemma FetchedPagesDisjoint(rows: map<Id, Row>, uid: Id, list: seq<Todo>, p: int, q: int, t: Todo)
    requires AnswersQuery(rows, uid, list)
    requires 1 <= p && 1 <= q && p != q && t in Page(list, p)
    ensures t !in Page(list, q)
  {
    PagesAreDisjoint(list, p, q, t);
  }

  // ---------------------------------------------------------------------------
  // The component

  /** The list component's state: `todos`, `loadingId`, `editingId`, `currentPage`. */
  class TodoListView {
    var todos: seq<Todo>
    var loadingId: Option<Id>
    var editingId: Option<Id>
    var currentPage: int

    ghost predicate Valid()
      reads this
    {
      currentPage >= 1
    }

    constructor ()
      ensures Valid()
      ensures todos == [] && loadingId == None && editingId == None && currentPage == 1
    {
      todos, loadingId, editingId, currentPage := [], None, None, 1;
    }

    /** `currentTodos`: the rows on the current page. */
    function CurrentTodos(): seq<Todo>
      reads this
    {
      Page(todos, currentPage)
    }

    /** The row of task `id` is on the current page and shows the button for `a`. */
    predicate Offers(id: Id, a: Action)
      reads this
    {
      exists t :: t in CurrentTodos() && t.id == id && a in Offered(t, editingId == Some(id))
    }

    /** With the page number at least 1, the rows shown are the current
        page's slice of the list: at most five, in list order. */
    lemma CurrentTodosContents()
      requires Valid()
      ensures CurrentTodos() == todos[Min(5 * (currentPage - 1), |todos|)..Min(5 * currentPage, |todos|)]
      ensures |CurrentTodos()| <= TodosPerPage
    {
      PageContents(todos, currentPage);
    }

    /** A button that is shown belongs to a listed task that is not being edited. */
    lemma OfferingRow(id: Id, a: Action) returns (t: Todo)
      requires Valid() && Offers(id, a)
      ensures t in todos && t.id == id && a in Offered(t, false)
    {
      t :| t in CurrentTodos() && t.id == id && a in Offered(t, editingId == Some(id));
      PageMember(todos, currentPage, t);
    }

    /** `handlePageChange`, reached from the page buttons 1 to `totalPages`,
        which are drawn only when there is more than one page. */
    method HandlePageChange(page: int)
      requires Valid() && TotalPages(|todos|) > 1 && 1 <= page <= TotalPages(|todos|)
      modifies this`currentPage
      ensures Valid() && currentPage == page
    {
      currentPage := page;
    }

    /** `fetchTodos`, with the signed-in user and the query's answer as inputs. */
    method FetchTodos(session: Session, reply: Reply<Todo>)
      modifies this`todos
      ensures todos == Refreshed(old(todos), session, reply)
      ensures session.SignedOut? ==> todos == []
      ensures session.SignedIn? && reply.Failed? ==> todos == old(todos)
      ensures session.SignedIn? && reply.Rows? ==> todos == reply.rows
    {
      if session.SignedOut? {
        todos := [];
        return;
      }
      if reply.Failed? {
        return;
      }
      todos := reply.rows;
    }

    /** The common body of the four timer handlers: mark the row busy, send
        the patch, clear the mark, refetch on success. */
    method UpdateThenRefresh(id: Id, p: Patch, table: Table, fails: bool, session: Session, reply: Reply<Todo>)
      requires Valid() && table.Valid()
      modifies this`todos, this`loadingId, table
      ensures Valid() && table.Valid()
      ensures table.rows == if fails then old(table.rows) else PatchedRows(old(table.rows), id, p)
      ensures todos == if fails then old(todos) else Refreshed(old(todos), session, reply)
      ensures loadingId == None
    {
      loadingId := Some(id);
      if !fails {
        table.Update(id, p);
      }
      loadingId := None;
      if !fails {
        FetchTodos(session, reply);
      }
    }

    /** `handleStart`: behind the Start button, sets `started_at` and clears `ended_at`. */
    method HandleStart(id: Id, now: Time, table: Table, fails: bool, session: Session, reply: Reply<Todo>)
      requires Valid() && table.Valid()
      requires Offers(id, Start) && loadingId != Some(id)
      modifies this`todos, this`loadingId, table
      ensures Valid() && table.Valid()
      ensures table.rows == if fails then old(table.rows) else PatchedRows(old(table.rows), id, StartPatch(now))
      ensures !fails && id in old(table.rows) ==>
        table.rows[id].todo == old(table.rows[id].todo).(startedAt := Some(now), endedAt := None)
      ensures todos == if fails then old(todos) else Refreshed(old(todos), session, reply)
      ensures loadingId == None
      ensures InSync(old(todos), old(table.rows)) && ConsistentStore(old(table.rows)) ==> ConsistentStore(table.rows)
      ensures InSync(old(todos), old(table.rows)) && ChronologicalStore(old(table.rows), now) ==>
        ChronologicalStore(table.rows, now)
      ensures !fails && session.SignedIn? && reply.Rows? && AnswersQuery(table.rows, session.userId, reply.rows) ==>
        InSync(todos, table.rows)
    {
      if InSync(todos, table.rows) {
        var t := OfferingRow(id, Start);
        OfferedActionKeepsStore(table.rows, t, Start, now);
      }
      UpdateThenRefresh(id, StartPatch(now), table, fails, session, reply);
    }

    /** `handleStop`: behind the Stop button, sets `ended_at` only. */
    method HandleStop(id: Id, now: Time, table: Table, fails: bool, session: Session, reply: Reply<Todo>)
      requires Valid() && table.Valid()
      requires Offers(id, Stop) && loadingId != Some(id)
      modifies this`todos, this`loadingId, table
      ensures Valid() && table.Valid()
      ensures table.rows == if fails then old(table.rows) else PatchedRows(old(table.rows), id, StopPatch(now))
      ensures !fails && id in old(table.rows) ==>
        table.rows[id].todo == old(table.rows[id].todo).(endedAt := Some(now))
      ensures todos == if fails then old(todos) else Refreshed(old(todos), session, reply)
      ensures loadingId == None
      ensures InSync(old(todos), old(table.rows)) && ConsistentStore(old(table.rows)) ==> ConsistentStore(table.rows)
      ensures InSync(old(todos), old(table.rows)) && ChronologicalStore(old(table.rows), now) ==>
        ChronologicalStore(table.rows, now)
      ensures !fails && session.SignedIn? && reply.Rows? && AnswersQuery(table.rows, session.userId, reply.rows) ==>
        InSync(todos, table.rows)
    {
      if InSync(todos, table.rows) {
        var t := OfferingRow(id, Stop);
        OfferedActionKeepsStore(table.rows, t, Stop, now);
      }
      UpdateThenRefresh(id, StopPatch(now), table, fails, session, reply);
    }

    /** `handleBreakStart`: behind the break button, sets `break_started_at`
        and clears `break_ended_at`. */
    method HandleBreakStart(id: Id, now: Time, table: Table, fails: bool, session: Session, reply: Reply<Todo>)
      requires Valid() && table.Valid()
      requires Offers(id, BreakStart) && loadingId != Some(id)
      modifies this`todos, this`loadingId, table
      ensures Valid() && table.Valid()
      ensures table.rows == if fails then old(table.rows) else PatchedRows(old(table.rows), id, BreakStartPatch(now))
      ensures !fails && id in old(table.rows) ==>
        table.rows[id].todo == old(table.rows[id].todo).(breakStartedAt := Some(now), breakEndedAt := None)
      ensures todos == if fails then old(todos) else Refreshed(old(todos), session, reply)
      ensures loadingId == None
      ensures InSync(old(todos), old(table.rows)) && ConsistentStore(old(table.rows)) ==> ConsistentStore(table.rows)
      ensures InSync(old(todos), old(table.rows)) && ChronologicalStore(old(table.rows), now) ==>
        ChronologicalStore(table.rows, now)
      ensures !fails && session.SignedIn? && reply.Rows? && AnswersQuery(table.rows, session.userId, reply.rows) ==>
        InSync(todos, table.rows)
    {
      if InSync(todos, table.rows) {
        var t := OfferingRow(id, BreakStart);
        OfferedActionKeepsStore(table.rows, t, BreakStart, now);
      }
      UpdateThenRefresh(id, BreakStartPatch(now), table, fails, session, reply);
    }

    /** `handleBreakEnd`: behind the break-end button, sets `break_ended_at` only. */
    method HandleBreakEnd(id: Id, now: Time, table: Table, fails: bool, session: Session, reply: Reply<Todo>)
      requires Valid() && table.Valid()
      requires Offers(id, BreakEnd) && loadingId != Some(id)
      modifies this`todos, this`loadingId, table
      ensures Valid() && table.Valid()
      ensures table.rows == if fails then old(table.rows) else PatchedRows(old(table.rows), id, BreakEndPatch(now))
      ensures !fails && id in old(table.rows) ==>
        table.rows[id].todo == old(table.rows[id].todo).(breakEndedAt := Some(now))
      ensures todos == if fails then old(todos) else Refreshed(old(todos), session, reply)
      ensures loadingId == None
      ensures InSync(old(todos), old(table.rows)) && ConsistentStore(old(table.rows)) ==> ConsistentStore(table.rows)
      ensures InSync(old(todos), old(table.rows)) && ChronologicalStore(old(table.rows), now) ==>
        ChronologicalStore(table.rows, now)
      ensures !fails && session.SignedIn? && reply.Rows? && AnswersQuery(table.rows, session.userId, reply.rows) ==>
        InSync(todos, table.rows)
    {
      if InSync(todos, table.rows) {
        var t := OfferingRow(id, BreakEnd);
        OfferedActionKeepsStore(table.rows, t, BreakEnd, now);
      }
      UpdateThenRefresh(id, BreakEndPatch(now), table, fails, session, reply);
    }

    /** `handleDelete`: `confirmed` is the user's answer to the confirmation
        dialog; `sent` says whether a delete request went out. */
    method HandleDelete(id: Id, confirmed: bool, table: Table, fails: bool, session: Session, reply: Reply<Todo>)
      returns (sent: bool)
      requires Valid() && table.Valid()
      requires Offers(id, Delete) && loadingId != Some(id)
      modifies this`todos, this`loadingId, table
      ensures Valid() && table.Valid()
      ensures sent == confirmed
      ensures !confirmed ==> table.rows == old(table.rows) && todos == old(todos) && loadingId == old(loadingId)
      ensures confirmed ==> table.rows == if fails then old(table.rows) else old(table.rows) - {id}
      ensures confirmed ==> todos == if fails then old(todos) else Refreshed(old(todos), session, reply)
      ensures confirmed ==> loadingId == None
      ensures ConsistentStore(old(table.rows)) ==> ConsistentStore(table.rows)
      ensures confirmed && !fails && session.SignedIn? && reply.Rows? && AnswersQuery(table.rows, session.userId, reply.rows) ==>
        InSync(todos, table.rows)
    {
      if !confirmed {
        return false;
      }
      sent := true;
      loadingId := Some(id);
      if !fails {
        table.Delete(id);
      }
      loadingId := None;
      if !fails {
        FetchTodos(session, reply);
      }
    }

    /** The Edit button: the row turns into the edit form. */
    method OpenEditor(id: Id)
      requires Valid() && Offers(id, Edit)
      modifies this`editingId
      ensures Valid() && editingId == Some(id)
    {
      editingId := Some(id);
    }

    /** The edit form's `onCancel`. */
    method CancelEdit()
      requires Valid()
      modifies this`editingId
      ensures Valid() && editingId == None
    {
      editingId := None;
    }

    /** The edit form's `onUpdated`: close the form and refetch. */
    method EditSaved(session: Session, reply: Reply<Todo>)
      requires Valid()
      modifies this`editingId, this`todos
      ensures Valid() && editingId == None
      ensures todos == Refreshed(old(todos), session, reply)
    {
      editingId := None;
      FetchTodos(session, reply);
    }
  }
}
