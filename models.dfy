/** The soft-delete record store of `django_splint.db.models`: one table seen
    through three managers, instances whose `save` writes an activity-log
    entry, a tombstoning `delete`, the unlogged `force_delete` escape hatch,
    and the user manager's argument checks. */
module Models {
  import opened Py

  /** A reading of the abstract clock behind `auto_now`, `auto_now_add` and
      `datetime.utcnow()`. */
  type Time = int

  /** The three activity-log actions. */
  datatype Action = Created | Updated | Deleted

  /** The persisted state of one row. `id` 0 never occurs in a stored row;
      on an instance it stands for an unset primary key. `userId` is the
      `user_id` attribute (`None` for a null or missing foreign key); `data`
      holds the model's own fields as `model_to_dict` reports them, so a
      `user` foreign key appears there under `user`. */
  datatype Row = Row(
    id: nat,
    createdAt: Option<Time>,
    updatedAt: Option<Time>,
    deleted: bool,
    deletedAt: Option<Time>,
    userId: Option<int>,
    data: map<string, Value>)

  /** The dictionary handed to the `activity` logger. */
  datatype LogEntry = LogEntry(
    action: Action,
    origin: Option<string>,
    user: Option<int>,
    model: string,
    snapshot: map<string, Value>)

  /** The three managers: `objects`, `deleted` and `objects_with_deleted`. */
  datatype View = Objects | DeletedObjects | ObjectsWithDeleted

  /** The filter each manager's `get_queryset` adds to the table. */
  predicate InView(v: View, r: Row) {
    match v
    case Objects => !r.deleted
    case DeletedObjects => r.deleted
    case ObjectsWithDeleted => true
  }

  /** The ids a manager shows. */
  function ViewIds(rows: map<nat, Row>, v: View): set<nat> {
    set i | i in rows && InView(v, rows[i])
  }

  /** The active and the deleted manager split the table between them. */
  lemma ViewsPartition(rows: map<nat, Row>)
    ensures ViewIds(rows, ObjectsWithDeleted) == rows.Keys
    ensures ViewIds(rows, Objects) + ViewIds(rows, DeletedObjects) == ViewIds(rows, ObjectsWithDeleted)
    ensures ViewIds(rows, Objects) !! ViewIds(rows, DeletedObjects)
  {
  }

  /** `get_action`: an unset id wins over the tombstone flag, which wins over
      everything else. Python's `not self.id` is true for `None` and `0`. */
  function GetAction(id: nat, deleted: bool): (a: Action)
    ensures a == Created <==> id == 0
    ensures a == Deleted <==> id != 0 && deleted
    ensures a == Updated <==> id != 0 && !deleted
  {
    if id == 0 then Created else if deleted then Deleted else Updated
  }

  function TimeValue(t: Option<Time>): Value {
    match t
    case None => Null
    case Some(x) => Int(x)
  }

  /** The editable fields of a row, as `model_to_dict` lists them: the
      model's own fields, the primary key and the tombstone fields
      (`created_at` and `updated_at` are not editable). */
  function Fields(r: Row): map<string, Value> {
    r.data["id" := Int(r.id)]["_deleted" := Bool(r.deleted)]["_deleted_at" := TimeValue(r.deletedAt)]
  }

  /** `model_to_dict(self, exclude=getattr(self, 'exclude_log', None))`. */
  function Snapshot(r: Row, exclude: Option<set<string>>): (m: map<string, Value>)
    ensures exclude.None? ==> m == Fields(r)
    ensures exclude.Some? ==> m.Keys == Fields(r).Keys - exclude.value
    ensures forall k :: k in m ==> m[k] == Fields(r)[k]
  {
    match exclude
    case None => Fields(r)
    case Some(ex) => Fields(r) - ex
  }

  /** Every column of a row under the name a lookup uses for it: the
      editable fields, both timestamps and the `user_id` attribute. */
  function Columns(r: Row): (c: map<string, Value>)
    ensures c.Keys == Fields(r).Keys + {"created_at", "updated_at", "user_id"}
    ensures c["created_at"] == TimeValue(r.createdAt) && c["updated_at"] == TimeValue(r.updatedAt)
    ensures c["user_id"] == (if r.userId.Some? then Int(r.userId.value) else Null)
    ensures forall k :: k in Fields(r) && k !in {"created_at", "updated_at", "user_id"} ==> c[k] == Fields(r)[k]
  {
    Fields(r)["created_at" := TimeValue(r.createdAt)]["updated_at" := TimeValue(r.updatedAt)]
      ["user_id" := if r.userId.Some? then Int(r.userId.value) else Null]
  }

  /** The columns every `SplintModel` has, whatever the subclass declares. */
  const BaseColumns: set<string> := {"id", "created_at", "updated_at", "_deleted", "_deleted_at"}

  /** A keyword lookup such as `get(id=3)`: every named column has the given value. */
  predicate MatchesLookup(kwargs: map<string, Value>, r: Row) {
    forall k :: k in kwargs ==> k in Columns(r) && Columns(r)[k] == kwargs[k]
  }

  /** The rows of the default manager that a lookup matches. */
  function ActiveMatches(rows: map<nat, Row>, kwargs: map<string, Value>): set<nat> {
    set i | i in rows && !rows[i].deleted && MatchesLookup(kwargs, rows[i])
  }

  /** A queryset of this table: a manager's view, narrowed by `id__in` when `ids` is given. */
  datatype QuerySet = QuerySet(view: View, ids: Option<set<nat>>)

  /** `queryset.filter(id__in=ids)`. */
  function Narrow(q: QuerySet, ids: set<nat>): (n: QuerySet)
    ensures n.view == q.view && n.ids.Some?
    ensures forall i :: i in n.ids.value <==> i in ids && (q.ids.None? || i in q.ids.value)
  {
    match q.ids
    case None => QuerySet(q.view, Some(ids))
    case Some(s) => QuerySet(q.view, Some(s * ids))
  }

  /** The ids a queryset matches. */
  function Matched(rows: map<nat, Row>, q: QuerySet): set<nat> {
    set i | i in rows && InView(q.view, rows[i]) && (q.ids.None? || i in q.ids.value)
  }

  /** The largest element of a non-empty set of ids. */
  ghost function Max(s: set<nat>): (m: nat)
    requires s != {}
    ensures m in s && forall y :: y in s ==> y <= m
  {
    var x :| x in s;
    if s == {x} then x
    else
      var r := Max(s - {x});
      assert forall y :: y in s ==> y == x || y in s - {x};
      if x > r then x else r
  }

  /** A set of ids in the order of `Meta.ordering = ['-id']`. */
  ghost function DescendingIds(s: set<nat>): (r: seq<nat>)
    decreases s
  {
    if s == {} then []
    else
      var m := Max(s);
      [m] + DescendingIds(s - {m})
  }

  /** Strictly decreasing, hence without repeats. */
  predicate Descending(r: seq<nat>) {
    forall j, k :: 0 <= j < k < |r| ==> r[j] > r[k]
  }

  /** `r` lists the elements of `s`, each once. */
  ghost predicate Lists(r: seq<nat>, s: set<nat>) {
    |r| == |s| && (forall x :: x in s <==> x in r)
  }

  /** `DescendingIds` lists each id of the set exactly once, largest first. */
  lemma {:induction false} DescendingIdsSpec(s: set<nat>)
    ensures Lists(DescendingIds(s), s)
    ensures Descending(DescendingIds(s))
    decreases s
  {
    if s != {} {
      var m := Max(s);
      var t := s - {m};
      DescendingIdsSpec(t);
      var rest := DescendingIds(t);
      assert DescendingIds(s) == [m] + rest;
      CoversCons(s, m, t, rest);
      UpperBound(m, t, rest);
      ConsDescending(m, rest);
    }
  }

  /** Every element of a list of `t` lies below a strict upper bound of `t`. */
  lemma UpperBound(m: nat, t: set<nat>, rest: seq<nat>)
    requires Lists(rest, t)
    requires forall y :: y in t ==> y <= m
    requires m !in t
    ensures forall y :: y in rest ==> y < m
  {
  }

  /** Adding the head `m` to a list of `t` lists `t + {m}`. */
  lemma CoversCons(s: set<nat>, m: nat, t: set<nat>, rest: seq<nat>)
    requires m in s && t == s - {m}
    requires Lists(rest, t)
    ensures Lists([m] + rest, s)
  {
    assert s == t + {m};
  }

  /** Putting an id above all others in front keeps a list descending. */
  lemma ConsDescending(m: nat, rest: seq<nat>)
    requires forall y :: y in rest ==> y < m
    requires Descending(rest)
    ensures Descending([m] + rest)
  {
    var r := [m] + rest;
    forall j, k | 0 <= j < k < |r|
      ensures r[j] > r[k]
    {
      assert r[k] == rest[k - 1] && rest[k - 1] in rest;
      if j > 0 {
        assert r[j] == rest[j - 1];
      }
    }
  }

  /** The ids a queryset yields when iterated, in `-id` order. */
  ghost function QueryOrder(rows: map<nat, Row>, q: QuerySet): (ids: seq<nat>)
    ensures forall k :: 0 <= k < |ids| ==> ids[k] in rows && ids[k] in Matched(rows, q)
  {
    DescendingIdsSpec(Matched(rows, q));
    var r := DescendingIds(Matched(rows, q));
    assert forall k :: 0 <= k < |r| ==> r[k] in r;
    r
  }

  /** The persisted state after an instance loaded from `r` is soft-deleted. */
  function SoftDeleted(r: Row, now: Time): Row {
    r.(deleted := true, deletedAt := Some(now), updatedAt := Some(now))
  }

  /** The table after every row whose id is in `s` has been soft-deleted. */
  function SoftDeleteAll(rows: map<nat, Row>, s: set<nat>, now: Time): map<nat, Row> {
    map i | i in rows :: if i in s then SoftDeleted(rows[i], now) else rows[i]
  }

  /** Soft-deleting a set of rows hides them from `objects`, shows them in
      `deleted`, and keeps `objects_with_deleted` as it was. */
  lemma SoftDeleteAllViews(rows: map<nat, Row>, s: set<nat>, now: Time)
    ensures ViewIds(SoftDeleteAll(rows, s, now), ObjectsWithDeleted) == ViewIds(rows, ObjectsWithDeleted)
    ensures ViewIds(SoftDeleteAll(rows, s, now), Objects) == ViewIds(rows, Objects) - s
    ensures ViewIds(SoftDeleteAll(rows, s, now), DeletedObjects) == ViewIds(rows, DeletedObjects) + s * rows.Keys
  {
  }

  /** One more soft-deleted row. */
  lemma SoftDeleteAllStep(rows: map<nat, Row>, s: set<nat>, id: nat, now: Time)
    requires id in rows
    ensures SoftDeleteAll(rows, s, now)[id := SoftDeleted(rows[id], now)] == SoftDeleteAll(rows, s + {id}, now)
  {
  }

  ghost function Elems(ids: seq<nat>): set<nat> {
    set x | x in ids
  }

  /** Growing a prefix of a list without repeats by one element. */
  lemma PrefixStep(ids: seq<nat>, k: nat)
    requires Descending(ids) && k < |ids|
    ensures ids[k] !in Elems(ids[..k])
    ensures Elems(ids[..k + 1]) == Elems(ids[..k]) + {ids[k]}
  {
    forall x | x in ids[..k]
      ensures x != ids[k]
    {
      var j :| 0 <= j < k && ids[j] == x;
    }
    assert ids[..k + 1] == ids[..k] + [ids[k]];
  }

  /** The whole of a list of `s` holds exactly `s`. */
  lemma PrefixAll(ids: seq<nat>, s: set<nat>)
    requires Lists(ids, s)
    ensures Elems(ids[..|ids|]) == s
  {
    assert ids[..|ids|] == ids;
  }

  /** One more entry of a queryset deletion's log. */
  lemma DeletionLogSnoc(rows: map<nat, Row>, ids: seq<nat>, k: nat, now: Time, model: string, exclude: Option<set<string>>)
    requires k < |ids| && forall j :: 0 <= j < |ids| ==> ids[j] in rows
    ensures DeletionLog(rows, ids[..k + 1], now, model, exclude)
         == DeletionLog(rows, ids[..k], now, model, exclude) + [DeletionEntry(rows[ids[k]], now, model, exclude)]
  {
  }

  /** Physically removing rows takes them out of every view and leaves the
      other rows untouched. */
  lemma ForceDeleteViews(rows: map<nat, Row>, s: set<nat>, v: View)
    ensures ViewIds(rows - s, v) == ViewIds(rows, v) - s
  {
  }

  /** The entry `save` logs for a loaded instance that `delete` tombstoned. */
  function DeletionEntry(r: Row, now: Time, model: string, exclude: Option<set<string>>): LogEntry {
    LogEntry(GetAction(r.id, true), None, r.userId, model, Snapshot(SoftDeleted(r, now), exclude))
  }

  /** The entries a queryset `delete` writes, one per row, in iteration order. */
  function DeletionLog(rows: map<nat, Row>, ids: seq<nat>, now: Time, model: string, exclude: Option<set<string>>): (log: seq<LogEntry>)
    requires forall k :: 0 <= k < |ids| ==> ids[k] in rows
    ensures |log| == |ids|
  {
    seq(|ids|, k requires 0 <= k < |ids| => DeletionEntry(rows[ids[k]], now, model, exclude))
  }

  /** Every entry of a queryset deletion over stored rows says `deleted` and
      carries the tombstoned snapshot of its own row. */
  lemma DeletionLogEntries(rows: map<nat, Row>, ids: seq<nat>, now: Time, model: string, exclude: Option<set<string>>)
    requires forall i :: i in rows ==> rows[i].id == i && i != 0
    requires forall k :: 0 <= k < |ids| ==> ids[k] in rows
    ensures forall k :: 0 <= k < |ids| ==>
      var e := DeletionLog(rows, ids, now, model, exclude)[k];
      && e.action == Deleted
      && e.model == model
      && e.origin.None?
      && (exclude.None? || "id" !in exclude.value ==> "id" in e.snapshot && e.snapshot["id"] == Int(ids[k]))
      && ("_deleted" !in (if exclude.Some? then exclude.value else {}) ==> "_deleted" in e.snapshot && e.snapshot["_deleted"] == Bool(true))
  {
  }

  /** The errors the default manager's `get` raises: an ambiguous lookup,
      and a lookup naming something that is not a column. */
  datatype LookupError = MultipleObjectsReturned | FieldError

  /** One table of a concrete `SplintModel` subclass, with the `activity`
      log its instances write. */
  class Table {
    /** `self.__class__.__name__`. */
    const modelName: string
    /** The model's `exclude_log` attribute, if it has one. */
    const excludeLog: Option<set<string>>
    /** The lookup names of the subclass's own columns (`user` and `user_id`
        among them when it has that foreign key). */
    const fieldNames: set<string>
    /** Every editable column the subclass declares, with the default a new
        instance takes when the constructor is not given it. */
    const defaults: map<string, Value>
    var rows: map<nat, Row>
    var log: seq<LogEntry>
    /** The last id the auto-increment key handed out. */
    var lastId: nat

    /** The declared columns are lookup names of their own, apart from the
        inherited ones, and every stored row holds exactly those columns. */
    ghost predicate Valid()
      reads this
    {
      && defaults.Keys <= fieldNames - {"user_id"}
      && defaults.Keys !! BaseColumns
      && forall i :: i in rows ==>
           && 1 <= i <= lastId && rows[i].id == i && rows[i].data.Keys == defaults.Keys
           && ("user_id" !in fieldNames ==> rows[i].userId.None?)
    }

    constructor (modelName: string, excludeLog: Option<set<string>>, fieldNames: set<string>, defaults: map<string, Value>)
      requires defaults.Keys <= fieldNames - {"user_id"} && defaults.Keys !! BaseColumns
      ensures Valid()
      ensures this.modelName == modelName && this.excludeLog == excludeLog
      ensures this.fieldNames == fieldNames && this.defaults == defaults
      ensures rows == map[] && log == [] && lastId == 0
    {
      this.modelName := modelName;
      this.excludeLog := excludeLog;
      this.fieldNames := fieldNames;
      this.defaults := defaults;
      rows := map[];
      log := [];
      lastId := 0;
    }

    /** `SplintManager.get_or_none`: the one matching active row, `None`
        when nothing matches; an ambiguous lookup or an unknown column name
        still raises, as `get` does. */
    method GetOrNone(kwargs: map<string, Value>) returns (r: Result<Option<Row>, LookupError>)
      requires Valid()
      ensures r == Err(FieldError) <==> !(kwargs.Keys <= BaseColumns + fieldNames)
      ensures r == Ok(None) <==> kwargs.Keys <= BaseColumns + fieldNames && ActiveMatches(rows, kwargs) == {}
      ensures r.Ok? && r.value.Some? ==>
        var row := r.value.value;
        && ActiveMatches(rows, kwargs) == {row.id}
        && row.id in rows && rows[row.id] == row
        && !row.deleted && MatchesLookup(kwargs, row)
      ensures r == Err(MultipleObjectsReturned) <==>
        kwargs.Keys <= BaseColumns + fieldNames && |ActiveMatches(rows, kwargs)| >= 2
    {
      var ms := ActiveMatches(rows, kwargs);
      if !(kwargs.Keys <= BaseColumns + fieldNames) {
        r := Err(FieldError);
      } else if ms == {} {
        r := Ok(None);
      } else {
        var i :| i in ms;
        if ms == {i} {
          r := Ok(Some(rows[i]));
        } else {
          var others := ms - {i};
          assert ms == others + {i};
          assert |ms| == |others| + 1;
          r := Err(MultipleObjectsReturned);
        }
      }
    }

    /** Evaluating a queryset: its ids in `-id` order. */
    method Evaluate(q: QuerySet) returns (ids: seq<nat>)
      ensures ids == QueryOrder(rows, q)
    {
      var rest := set i | i in rows && InView(q.view, rows[i]) && (q.ids.None? || i in q.ids.value);
      ghost var all := rest;
      ids := [];
      while rest != {}
        invariant rest <= all
        invariant ids + DescendingIds(rest) == DescendingIds(all)
        decreases rest
      {
        var m := MaxOf(rest);
        ids := ids + [m];
        rest := rest - {m};
      }
    }

    /** `SplintQuerySet.delete`: every matched row, in `-id` order, is loaded
        and soft-deleted through the instance `delete`, so each one is logged. */
    method QuerySetDelete(q: QuerySet, now: Time)
      requires Valid()
      modifies this
      ensures Valid()
      ensures lastId == old(lastId)
      ensures rows == SoftDeleteAll(old(rows), old(Matched(rows, q)), now)
      ensures log == old(log) + DeletionLog(old(rows), old(QueryOrder(rows, q)), now, modelName, excludeLog)
    {
      var ids := Evaluate(q);
      DescendingIdsSpec(Matched(rows, q));
      PrefixAll(ids, Matched(rows, q));
      assert ids[..|ids|] == ids;
      DeleteEach(ids, now);
    }

    /** The loop of `SplintQuerySet.delete` over the ids it iterates. */
    method DeleteEach(ids: seq<nat>, now: Time)
      requires Valid() && Descending(ids)
      requires forall k :: 0 <= k < |ids| ==> ids[k] in rows
      modifies this
      ensures Valid() && lastId == old(lastId)
      ensures rows == SoftDeleteAll(old(rows), Elems(ids[..|ids|]), now)
      ensures log == old(log) + DeletionLog(old(rows), ids, now, modelName, excludeLog)
    {
      ghost var rows0 := rows;
      ghost var log0 := log;
      ghost var done: set<nat> := {};
      var k := 0;
      while k < |ids|
        invariant 0 <= k <= |ids|
        invariant Valid() && lastId == old(lastId)
        invariant done == Elems(ids[..k])
        invariant rows == SoftDeleteAll(rows0, done, now)
        invariant log == log0 + DeletionLog(rows0, ids[..k], now, modelName, excludeLog)
      {
        var id := ids[k];
        PrefixStep(ids, k);
        assert id in rows0 && rows[id] == rows0[id];
        DeleteLoaded(id, now);
        SoftDeleteAllStep(rows0, done, id, now);
        DeletionLogSnoc(rows0, ids, k, now, modelName, excludeLog);
        done := done + {id};
        k := k + 1;
      }
      assert ids[..k] == ids;
    }

    /** One step of the queryset loop: `obj.delete()` on the instance the
        iteration loaded for row `id`. */
    method DeleteLoaded(id: nat, now: Time)
      requires Valid() && id in rows
      modifies this
      ensures Valid() && lastId == old(lastId)
      ensures rows == old(rows)[id := SoftDeleted(old(rows)[id], now)]
      ensures log == old(log) + [DeletionEntry(old(rows)[id], now, modelName, excludeLog)]
      ensures "user_id" !in fieldNames ==> log[|log| - 1].user.None?
    {
      var inst := new Instance.Load(this, rows[id]);
      inst.Delete(now);
    }

    /** `SplintQuerySet.force_delete`: the matched rows are removed outright
        and nothing is logged. Answers the number of rows removed. */
    method QuerySetForceDelete(q: QuerySet) returns (count: nat)
      requires Valid()
      modifies this
      ensures Valid()
      ensures count == |old(Matched(rows, q))|
      ensures rows == old(rows) - old(Matched(rows, q))
      ensures log == old(log) && lastId == old(lastId)
    {
      var ms := set i | i in rows && InView(q.view, rows[i]) && (q.ids.None? || i in q.ids.value);
      count := |ms|;
      rows := rows - ms;
    }
  }

  /** The largest element of a non-empty set, found by a scan. */
  method MaxOf(s: set<nat>) returns (m: nat)
    requires s != {}
    ensures m == Max(s)
  {
    m :| m in s;
    var rest := s - {m};
    while rest != {}
      invariant rest <= s && m in s
      invariant forall y :: y in s && y !in rest ==> y <= m
      decreases rest
    {
      var y :| y in rest;
      if y > m {
        m := y;
      }
      rest := rest - {y};
    }
  }

  /** The error `Model.delete` raises for an instance without a primary key. */
  datatype DeleteError = ValueError

  /** An in-memory model instance. `origin` is the transient attribute the
      calling layer sets; `adding` is Django's `_state.adding`. */
  class Instance {
    const table: Table
    var id: nat
    var createdAt: Option<Time>
    var updatedAt: Option<Time>
    var deleted: bool
    var deletedAt: Option<Time>
    var userId: Option<int>
    var data: map<string, Value>
    var origin: Option<string>
    var adding: bool

    /** The instance's state as a row. */
    function State(): Row
      reads this
    {
      Row(id, createdAt, updatedAt, deleted, deletedAt, userId, data)
    }

    /** What `save` writes to the row: the instance's state, except that a
        `user_id` attribute is stored only when the model has that column;
        on any other model it is a plain attribute, like `origin`. */
    function Stored(): (r: Row)
      reads this
      ensures r.userId == (if "user_id" in table.fieldNames then userId else None)
      ensures r.(userId := userId) == State()
    {
      State().(userId := if "user_id" in table.fieldNames then userId else None)
    }

    /** `Model(**fields)`: a new, unsaved instance. Every declared column not
        among `fields` takes its default. `origin` is not a constructor
        argument in Django, which rejects unknown keywords; callers set the
        attribute on the new object, and it is a parameter here only to
        say so in one step. */
    constructor New(table: Table, fields: map<string, Value>, userId: Option<int>, origin: Option<string>)
      requires fields.Keys <= table.defaults.Keys
      ensures this.table == table && id == 0 && adding
      ensures !deleted && deletedAt.None? && createdAt.None? && updatedAt.None?
      ensures data == table.defaults + fields && data.Keys == table.defaults.Keys
      ensures this.userId == userId && this.origin == origin
    {
      this.table := table;
      this.data := table.defaults + fields;
      this.userId := userId;
      this.origin := origin;
      id := 0;
      createdAt, updatedAt := None, None;
      deleted, deletedAt := false, None;
      adding := true;
    }

    /** An instance loaded from a stored row: no `origin` attribute. */
    constructor Load(table: Table, r: Row)
      ensures this.table == table && State() == r && origin.None? && !adding
    {
      this.table := table;
      id, createdAt, updatedAt := r.id, r.createdAt, r.updatedAt;
      deleted, deletedAt := r.deleted, r.deletedAt;
      userId, data := r.userId, r.data;
      origin := None;
      adding := false;
    }

    /** `SplintModel.save`: the action is decided before persisting; the row
        is inserted (new id, or a set id with no stored row, as after Django's
        UPDATE matches nothing) or overwritten; `created_at` is stamped on
        every INSERT; one log entry follows unless `log_activity` is false. */
    method Save(logActivity: bool, now: Time)
      requires table.Valid() && data.Keys == table.defaults.Keys
      modifies this, table
      ensures table.Valid()
      ensures old(id) == 0 ==> id == old(table.lastId) + 1 && table.lastId == id
      ensures old(id) != 0 ==> id == old(id) && table.lastId == (if old(id) > old(table.lastId) then old(id) else old(table.lastId))
      ensures createdAt == (if old(id) == 0 || old(id) !in old(table.rows) then Some(now) else old(createdAt))
      ensures updatedAt == Some(now) && !adding
      ensures deleted == old(deleted) && deletedAt == old(deletedAt)
      ensures userId == old(userId) && data == old(data) && origin == old(origin)
      ensures table.rows == old(table.rows)[id := Stored()]
      ensures table.log == old(table.log) +
        (if logActivity then [LogEntry(GetAction(old(id), old(deleted)), origin, userId, table.modelName, Snapshot(Stored(), table.excludeLog))] else [])
    {
      var action := GetAction(id, deleted);
      var inserts := id == 0 || id !in table.rows;
      AssignId();
      if inserts {
        createdAt := Some(now);
      }
      updatedAt := Some(now);
      adding := false;
      Write(action, logActivity);
    }

    /** The primary-key half of `save`: a new instance takes the next id. */
    method AssignId()
      requires table.Valid()
      modifies this`id, table`lastId
      ensures table.Valid() && 1 <= id <= table.lastId
      ensures old(id) == 0 ==> id == old(table.lastId) + 1 && table.lastId == id
      ensures old(id) != 0 ==> id == old(id) && table.lastId == (if old(id) > old(table.lastId) then old(id) else old(table.lastId))
    {
      if id == 0 {
        table.lastId := table.lastId + 1;
        id := table.lastId;
      } else if id > table.lastId {
        table.lastId := id;
      }
    }

    /** The storage half of `save`: write the row, then log it when asked. */
    method Write(action: Action, logActivity: bool)
      requires table.Valid() && 1 <= id <= table.lastId && data.Keys == table.defaults.Keys
      modifies table`rows, table`log
      ensures table.Valid()
      ensures table.rows == old(table.rows)[id := Stored()]
      ensures table.log == old(table.log) +
        (if logActivity then [LogEntry(action, origin, userId, table.modelName, Snapshot(Stored(), table.excludeLog))] else [])
    {
      table.rows := table.rows[id := Stored()];
      if logActivity {
        table.log := table.log + [LogEntry(action, origin, userId, table.modelName, Snapshot(Stored(), table.excludeLog))];
      }
    }

    /** `SplintModel.delete`: set the tombstone, stamp it and `save`. The row
        stays; a repeat call stamps and logs again. An instance that was
        never saved is inserted already deleted and logged as `created`. */
    method Delete(now: Time)
      requires table.Valid() && data.Keys == table.defaults.Keys
      modifies this, table
      ensures table.Valid()
      ensures id == (if old(id) == 0 then old(table.lastId) + 1 else old(id))
      ensures table.lastId == (if id > old(table.lastId) then id else old(table.lastId))
      ensures deleted && deletedAt == Some(now) && updatedAt == Some(now) && !adding
      ensures createdAt == (if old(id) == 0 || old(id) !in old(table.rows) then Some(now) else old(createdAt))
      ensures userId == old(userId) && data == old(data) && origin == old(origin)
      ensures table.rows == old(table.rows)[id := Stored()]
      ensures table.rows.Keys == old(table.rows.Keys) + {id}
      ensures table.log == old(table.log) +
        [LogEntry(if old(id) == 0 then Created else Deleted, origin, userId, table.modelName, Snapshot(Stored(), table.excludeLog))]
    {
      deleted := true;
      deletedAt := Some(now);
      Save(true, now);
    }

    /** `SplintModel.force_delete`: Django's own delete. The row goes, the
        instance loses its primary key, and nothing is logged. Answers the
        number of rows removed. */
    method ForceDelete() returns (r: Result<nat, DeleteError>)
      requires table.Valid()
      modifies this, table
      ensures table.Valid()
      ensures table.log == old(table.log) && table.lastId == old(table.lastId)
      ensures old(id) == 0 ==> r == Err(ValueError) && table.rows == old(table.rows) && id == 0
      ensures old(id) != 0 ==>
        && r == Ok(if old(id) in old(table.rows) then 1 else 0)
        && table.rows == old(table.rows) - {old(id)}
        && id == 0
      ensures createdAt == old(createdAt) && updatedAt == old(updatedAt)
      ensures deleted == old(deleted) && deletedAt == old(deletedAt) && data == old(data)
      ensures userId == old(userId) && origin == old(origin) && adding == old(adding)
    {
      if id == 0 {
        r := Err(ValueError);
      } else {
        r := Ok(if id in table.rows then 1 else 0);
        table.rows := table.rows - {id};
        id := 0;
      }
    }
  }

  /** The arguments `_create_user` receives. */
  datatype NewUser = NewUser(email: Option<string>, password: Option<string>, extra: map<string, Value>)

  /** `dict.setdefault`. */
  function SetDefault(m: map<string, Value>, k: string, v: Value): (r: map<string, Value>)
    ensures r.Keys == m.Keys + {k}
    ensures r[k] == if k in m then m[k] else v
    ensures forall j :: j in m ==> r[j] == m[j]
  {
    if k in m then m else m[k := v]
  }

  /** `create_user`: `is_staff` and `is_superuser` default to `False`, and a
      missing password becomes the first eight characters of a fresh UUID
      string (`uuid`, supplied by the caller). */
  function CreateUser(email: Option<string>, password: Option<string>, extra: map<string, Value>, uuid: string): (u: NewUser)
    ensures u.email == email
    ensures u.extra.Keys == extra.Keys + {"is_staff", "is_superuser"}
    ensures forall k :: k in extra ==> u.extra[k] == extra[k]
    ensures "is_staff" !in extra ==> u.extra["is_staff"] == Bool(false)
    ensures "is_superuser" !in extra ==> u.extra["is_superuser"] == Bool(false)
    ensures password.Some? ==> u.password == password
    ensures password.None? ==> u.password == Some(Take(uuid, 8))
    ensures password.None? && |uuid| >= 8 ==> |u.password.value| == 8 && u.password.value == uuid[..8]
  {
    var ex := SetDefault(SetDefault(extra, "is_staff", Bool(false)), "is_superuser", Bool(false));
    NewUser(email, if password.None? then Some(Take(uuid, 8)) else password, ex)
  }

  datatype UserError = StaffRequired | SuperuserRequired

  /** `create_superuser`: both flags default to `True`, and anything but the
      value `True` for either raises `ValueError`, `is_staff` checked first. */
  function CreateSuperuser(email: Option<string>, password: Option<string>, extra: map<string, Value>): (r: Result<NewUser, UserError>)
    ensures r.Ok? <==>
      ("is_staff" !in extra || extra["is_staff"] == Bool(true)) &&
      ("is_superuser" !in extra || extra["is_superuser"] == Bool(true))
    ensures r == Err(StaffRequired) <==> "is_staff" in extra && extra["is_staff"] != Bool(true)
    ensures r.Ok? ==>
      && r.value.email == email && r.value.password == password
      && r.value.extra.Keys == extra.Keys + {"is_staff", "is_superuser"}
      && r.value.extra["is_staff"] == Bool(true) && r.value.extra["is_superuser"] == Bool(true)
      && forall k :: k in extra ==> r.value.extra[k] == extra[k]
  {
    var ex := SetDefault(SetDefault(extra, "is_staff", Bool(true)), "is_superuser", Bool(true));
    if ex["is_staff"] != Bool(true) then Err(StaffRequired)
    else if ex["is_superuser"] != Bool(true) then Err(SuperuserRequired)
    else Ok(NewUser(email, password, ex))
  }
}
