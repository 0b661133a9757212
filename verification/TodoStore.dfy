/**
 * hooks/useTodoStore.ts (with the row shape of db/schema.ts): the `todos`
 * table, the list of todos the home screen shows, the draft being edited,
 * and the search text.
 *
 * Ids and priorities are integers (`Number(id)`, `Number(priority)`); an
 * absent one is `None`, which the table stores as NULL. Timestamps are the
 * ISO strings the caller passes in as `now`. The `label` column (the
 * comma-joined label keys) is the field `labels`, `label` being a Dafny keyword.
 */
module TodoStore {
  import opened Wrappers
  import AppUtil

  /** A row of the `todos` table. */
  datatype Row = Row(
    id: int,
    title: Option<string>,
    description: Option<string>,
    complete: Option<int>,
    priority: Option<int>,
    labels: Option<string>,
    schedule: Option<string>,
    createdAt: string,
    updatedAt: Option<string>)

  /** `EditTodoModel`: the draft's fields. */
  datatype EditTodo = EditTodo(
    title: Option<string>,
    description: Option<string>,
    priority: Option<int>,
    labels: Option<string>,
    schedule: Option<string>,
    complete: bool)

  /** `DEFAULT_TODO`: every field undefined and `complete` false. */
  const DefaultTodo: EditTodo := EditTodo(None, None, None, None, None, false)

  type Table = map<int, Row>

  /** The table's primary key: every row is stored under its own id. */
  predicate KeyedById(t: Table) {
    forall k :: k in t ==> t[k].id == k
  }

  /** `!title` is false: the draft's title is truthy. */
  function HasTitle(d: EditTodo): (b: bool)
    ensures b <==> d.title.Some? && d.title.value != ""
    ensures b ==> |d.title.value| >= 1
  {
    AppUtil.Truthy(if d.title.Some? then AppUtil.Str(d.title.value) else AppUtil.Undefined)
  }

  /** `complete ? 1 : 0`. */
  function CompleteFlag(complete: bool): (f: int)
    ensures f == 0 || f == 1
    ensures f == 1 <==> complete
  {
    if complete then 1 else 0
  }

  /** The edit fields of a stored row are the draft's. */
  predicate HoldsDraft(r: Row, d: EditTodo) {
    && r.title == d.title && r.description == d.description && r.priority == d.priority
    && r.labels == d.labels && r.schedule == d.schedule && r.complete == Some(CompleteFlag(d.complete))
  }

  /** The row `saveTodo` inserts when the id is new: the draft, created `now`, never updated. */
  function NewRow(id: int, d: EditTodo, now: string): (r: Row)
    ensures r.id == id && HoldsDraft(r, d)
    ensures r.createdAt == now && r.updatedAt.None?
  {
    Row(id, d.title, d.description, Some(CompleteFlag(d.complete)), d.priority, d.labels, d.schedule, now, None)
  }

  /**
   * A column of the `onConflictDoUpdate` set: an undefined value is left out
   * of the set clause, so the stored value stays.
   */
  function SetUnlessUndefined<T>(value: Option<T>, stored: Option<T>): Option<T> {
    if value.Some? then value else stored
  }

  /**
   * A stored row after the update: every draft field that is defined is
   * written, every undefined one keeps the stored value; `priority`
   * (`Number(priority)`, never undefined) and `complete` are always written.
   */
  predicate HoldsUpdate(u: Row, r: Row, d: EditTodo) {
    && (d.title.Some? ==> u.title == d.title) && (d.title.None? ==> u.title == r.title)
    && (d.description.Some? ==> u.description == d.description)
    && (d.description.None? ==> u.description == r.description)
    && (d.labels.Some? ==> u.labels == d.labels) && (d.labels.None? ==> u.labels == r.labels)
    && (d.schedule.Some? ==> u.schedule == d.schedule) && (d.schedule.None? ==> u.schedule == r.schedule)
    && u.priority == d.priority && u.complete == Some(CompleteFlag(d.complete))
  }

  /** The `onConflictDoUpdate` set applied to the stored row; id and `createdAt` stay. */
  function UpdatedRow(r: Row, d: EditTodo, now: string): (u: Row)
    ensures HoldsUpdate(u, r, d)
    ensures u.id == r.id && u.createdAt == r.createdAt && u.updatedAt == Some(now)
  {
    r.(title := SetUnlessUndefined(d.title, r.title),
       description := SetUnlessUndefined(d.description, r.description),
       complete := Some(CompleteFlag(d.complete)),
       priority := d.priority,
       labels := SetUnlessUndefined(d.labels, r.labels),
       schedule := SetUnlessUndefined(d.schedule, r.schedule),
       updatedAt := Some(now))
  }

  /** An update with every text field defined stores the draft as it is. */
  lemma UpdateOfFullDraftHoldsDraft(u: Row, r: Row, d: EditTodo)
    requires HoldsUpdate(u, r, d)
    requires d.title.Some? && d.description.Some? && d.labels.Some? && d.schedule.Some?
    ensures HoldsDraft(u, d)
  {
  }

  /** `insert ... onConflictDoUpdate({ target: todos.id })` of the draft under `id`. */
  function Upsert(t: Table, id: int, d: EditTodo, now: string): (r: Table)
    ensures r.Keys == t.Keys + {id}
    ensures id !in t ==> HoldsDraft(r[id], d)
    ensures id in t ==> HoldsUpdate(r[id], t[id], d)
    ensures HasTitle(d) ==> r[id].title == d.title
    ensures id !in t ==> r[id].id == id && r[id].createdAt == now && r[id].updatedAt == None
    ensures id in t ==> r[id].createdAt == t[id].createdAt && r[id].updatedAt == Some(now) && r[id].id == t[id].id
    ensures forall k :: k in t && k != id ==> r[k] == t[k]
    ensures KeyedById(t) ==> KeyedById(r)
  {
    if id in t then t[id := UpdatedRow(t[id], d, now)] else t[id := NewRow(id, d, now)]
  }

  /** `delete(todos).where(eq(todos.id, id))`: no error when the id is absent. */
  function Delete(t: Table, id: int): (r: Table)
    ensures r.Keys == t.Keys - {id}
    ensures forall k :: k in r ==> r[k] == t[k]
    ensures id !in t ==> r == t
    ensures KeyedById(t) ==> KeyedById(r)
  {
    t - {id}
  }

  /**
   * Saving the same draft under the same id twice leaves one row for that id:
   * the second save changes only `updatedAt`.
   */
  lemma SaveTwice(t: Table, id: int, d: EditTodo, now1: string, now2: string)
    ensures var t1 := Upsert(t, id, d, now1);
      var t2 := Upsert(t1, id, d, now2);
      && t2.Keys == t1.Keys
      && t2[id] == t1[id].(updatedAt := Some(now2))
      && forall k :: k in t1 && k != id ==> t2[k] == t1[k]
  {
  }

  /**
   * The order of `orderBy(desc(todos.priority))`: `p` may come before `q`.
   * SQLite sorts NULL below every number, so descending order puts it last.
   */
  predicate AtLeast(p: Option<int>, q: Option<int>) {
    match (p, q)
    case (Some(x), Some(y)) => x >= y
    case (Some(_), None) => true
    case (None, None) => true
    case (None, Some(_)) => false
  }

  predicate SortedByPriorityDesc(rows: seq<Row>) {
    forall i, j :: 0 <= i < j < |rows| ==> AtLeast(rows[i].priority, rows[j].priority)
  }

  predicate DistinctIds(rows: seq<Row>) {
    forall i, j :: 0 <= i < j < |rows| ==> rows[i].id != rows[j].id
  }

  /**
   * `rows` is what the query returns on table `t`: every row of the table
   * once, nothing else, ordered by priority descending (ties in any order).
   */
  predicate IsListing(rows: seq<Row>, t: Table) {
    && SortedByPriorityDesc(rows)
    && DistinctIds(rows)
    && (forall x :: x in rows ==> x.id in t && t[x.id] == x)
    && (forall k :: k in t ==> t[k] in rows)
  }

  /** Inserts `r` into a priority-sorted list before the first row of lower priority. */
  function InsertByPriority(rows: seq<Row>, r: Row): (s: seq<Row>)
    ensures |s| == |rows| + 1
    ensures forall x :: x in s <==> x in rows || x == r
  {
    if rows == [] then [r]
    else if AtLeast(r.priority, rows[0].priority) then [r] + rows
    else
      var tail := InsertByPriority(rows[1..], r);
      assert forall x :: x in rows <==> x == rows[0] || x in rows[1..];
      [rows[0]] + tail
  }

  /** Inserting keeps the list sorted, and keeps ids distinct when `r`'s id is new. */
  lemma {:induction false} InsertByPriorityKeepsOrder(rows: seq<Row>, r: Row)
    requires SortedByPriorityDesc(rows)
    ensures SortedByPriorityDesc(InsertByPriority(rows, r))
    ensures DistinctIds(rows) && (forall x :: x in rows ==> x.id != r.id) ==> DistinctIds(InsertByPriority(rows, r))
  {
    var s := InsertByPriority(rows, r);
    if rows == [] {
    } else if AtLeast(r.priority, rows[0].priority) {
      assert s == [r] + rows;
      forall j | 1 <= j < |s| ensures AtLeast(r.priority, s[j].priority) {
        assert s[j] == rows[j - 1];
        if j > 1 { assert AtLeast(rows[0].priority, rows[j - 1].priority); }
      }
      if DistinctIds(rows) && (forall x :: x in rows ==> x.id != r.id) {
        forall i, j | 0 <= i < j < |s| ensures s[i].id != s[j].id {
          if i == 0 { assert s[j] in rows; }
          else { assert s[i] == rows[i - 1] && s[j] == rows[j - 1]; }
        }
      }
    } else {
      var tail := InsertByPriority(rows[1..], r);
      assert s == [rows[0]] + tail;
      InsertByPriorityKeepsOrder(rows[1..], r);
      forall j | 1 <= j < |s| ensures AtLeast(rows[0].priority, s[j].priority) {
        assert s[j] in tail;
        if s[j] != r {
          var m :| 0 <= m < |rows[1..]| && rows[1..][m] == s[j];
          assert rows[m + 1] == s[j];
        }
      }
      if DistinctIds(rows) && (forall x :: x in rows ==> x.id != r.id) {
        assert DistinctIds(rows[1..]);
        forall j | 1 <= j < |s| ensures s[0].id != s[j].id {
          assert s[j] in tail;
          if s[j] != r {
            var m :| 0 <= m < |rows[1..]| && rows[1..][m] == s[j];
            assert rows[m + 1] == s[j];
          }
        }
      }
    }
  }

  /** A set of keys is empty or has an element to visit next. */
  lemma EmptyOrHasKey(keys: set<int>)
    ensures keys == {} || exists k :: k in keys
  {
    if forall k :: k !in keys {
      assert keys == {};
    }
  }

  /**
   * `db.select().from(todos).orderBy(desc(todos.priority)).all()`: the table
   * engine visits the rows in some order and keeps them sorted.
   */
  method SelectAllByPriority(t: Table) returns (rows: seq<Row>)
    requires KeyedById(t)
    ensures IsListing(rows, t)
  {
    rows := [];
    var rest := t.Keys;
    while rest != {}
      invariant rest <= t.Keys
      invariant SortedByPriorityDesc(rows)
      invariant DistinctIds(rows)
      invariant forall x :: x in rows ==> x.id in t && t[x.id] == x && x.id !in rest
      invariant forall k :: k in t && k !in rest ==> t[k] in rows
      decreases rest
    {
      EmptyOrHasKey(rest);
      var k :| k in rest;
      InsertByPriorityKeepsOrder(rows, t[k]);
      rows := InsertByPriority(rows, t[k]);
      rest := rest - {k};
    }
  }

  /**
   * The key SQLite gives a row inserted without an id (`Number(undefined)`
   * binds as NULL): one more than the largest key, or 1 in an empty table.
   */
  method NextRowId(t: Table) returns (id: int)
    ensures id !in t
    ensures forall k :: k in t ==> k < id
    ensures t == map[] ==> id == 1
    ensures t != map[] ==> id - 1 in t
  {
    var largest := 0;
    var seen := false;
    var rest := t.Keys;
    while rest != {}
      invariant rest <= t.Keys
      invariant seen ==> largest in t && forall k :: k in t && k !in rest ==> k <= largest
      invariant !seen ==> rest == t.Keys
      decreases rest
    {
      EmptyOrHasKey(rest);
      var k :| k in rest;
      if !seen || k > largest {
        largest := k;
      }
      seen := true;
      rest := rest - {k};
    }
    if seen {
      id := largest + 1;
    } else {
      id := 1;
    }
  }

  /** The result of `useTodo(id)`: the default draft when no id is given, else the row or undefined. */
  datatype TodoLookup = DefaultDraft(todo: EditTodo) | StoredRow(row: Option<Row>)

  /** `useTodo(id)`. */
  function UseTodo(t: Table, id: Option<int>): (r: TodoLookup)
    ensures id.None? ==> r == DefaultDraft(DefaultTodo)
    ensures id.Some? ==> r.StoredRow? && (r.row.Some? <==> id.value in t)
    ensures id.Some? && id.value in t ==> r.row == Some(t[id.value])
  {
    if id.None? then DefaultDraft(DefaultTodo)
    else if id.value in t then StoredRow(Some(t[id.value])) else StoredRow(None)
  }

  /** `useSearchStore`: the current search text. */
  class SearchStore {
    var searchText: string

    constructor ()
      ensures searchText == ""
    {
      searchText := "";
    }

    method OnChangeSearchText(text: string)
      modifies this
      ensures searchText == text
    {
      searchText := text;
    }
  }

  /**
   * The table together with `useTodoStore` (the `todos` list) and
   * `useEditTodoStore` (the draft), whose actions write the table and refetch.
   */
  class Store {
    var table: Table
    var todos: seq<Row>
    var draft: EditTodo

    ghost predicate Valid()
      reads this
    {
      KeyedById(table)
    }

    /**
     * Creates both stores over an existing table. When the first query
     * throws (the schema is not there yet) the store still comes up, with an
     * empty list.
     */
    constructor (table: Table, queryFails: bool)
      requires KeyedById(table)
      ensures Valid() && this.table == table && draft == DefaultTodo
      ensures queryFails ==> todos == []
      ensures !queryFails ==> IsListing(todos, table)
    {
      var fetched: seq<Row> := [];
      if !queryFails {
        fetched := SelectAllByPriority(table);
      }
      this.table := table;
      draft := DefaultTodo;
      todos := fetched;
    }

    /** `refetchTodos`: replaces the list with the ordered query's result. */
    method RefetchTodos()
      requires Valid()
      modifies this
      ensures Valid() && table == old(table) && draft == old(draft)
      ensures IsListing(todos, table)
    {
      todos := SelectAllByPriority(table);
    }

    /** `getTodo(id)`: reads the table, not the cached list. */
    method GetTodo(id: int) returns (r: Option<Row>)
      requires Valid()
      ensures r.Some? <==> id in table
      ensures r.Some? ==> r.value == table[id] && r.value.id == id
    {
      if id in table {
        r := Some(table[id]);
      } else {
        r := None;
      }
    }

    method OnChangeTitle(title: Option<string>)
      modifies this
      ensures draft == old(draft).(title := title)
      ensures table == old(table) && todos == old(todos)
    {
      draft := draft.(title := title);
    }

    method OnChangeDescription(description: Option<string>)
      modifies this
      ensures draft == old(draft).(description := description)
      ensures table == old(table) && todos == old(todos)
    {
      draft := draft.(description := description);
    }

    method OnChangePriority(priority: Option<int>)
      modifies this
      ensures draft == old(draft).(priority := priority)
      ensures table == old(table) && todos == old(todos)
    {
      draft := draft.(priority := priority);
    }

    method OnChangeLabel(labels: Option<string>)
      modifies this
      ensures draft == old(draft).(labels := labels)
      ensures table == old(table) && todos == old(todos)
    {
      draft := draft.(labels := labels);
    }

    method OnChangeSchedule(schedule: Option<string>)
      modifies this
      ensures draft == old(draft).(schedule := schedule)
      ensures table == old(table) && todos == old(todos)
    {
      draft := draft.(schedule := schedule);
    }

    method ToggleComplete(complete: bool)
      modifies this
      ensures draft == old(draft).(complete := complete)
      ensures table == old(table) && todos == old(todos)
    {
      draft := draft.(complete := complete);
    }

    /**
     * `saveTodo(id)`: a draft without a title changes nothing. Otherwise the
     * draft is upserted under `id` (or under a fresh key when there is none),
     * the draft is reset and the list is refetched. `saved` is the key written.
     */
    method SaveTodo(id: Option<int>, now: string) returns (saved: Option<int>)
      requires Valid()
      modifies this
      ensures Valid()
      ensures saved.Some? <==> HasTitle(old(draft))
      ensures saved.None? ==> table == old(table) && draft == old(draft) && todos == old(todos)
      ensures saved.Some? ==> table == Upsert(old(table), saved.value, old(draft), now)
      ensures saved.Some? ==> draft == DefaultTodo && IsListing(todos, table)
      ensures saved.Some? && id.Some? ==> saved.value == id.value
      ensures saved.Some? && id.None? ==> saved.value !in old(table)
    {
      var d := draft;
      if !HasTitle(d) {
        return None;
      }
      var key: int;
      if id.Some? {
        key := id.value;
      } else {
        key := NextRowId(table);
      }
      table := Upsert(table, key, d, now);
      draft := DefaultTodo;
      RefetchTodos();
      saved := Some(key);
    }

    /** `deleteTodo(id)`: removes that row, if any, then refetches. */
    method DeleteTodo(id: int)
      requires Valid()
      modifies this
      ensures Valid() && draft == old(draft)
      ensures table == Delete(old(table), id)
      ensures IsListing(todos, table)
    {
      table := Delete(table, id);
      RefetchTodos();
    }
  }
}
