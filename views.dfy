/** The viewset mixins of `django_splint.api.views`: choosing a serializer class
    by action, switching pagination off, bulk payloads, and bulk deletion
    routed into the soft-delete store. */
module Views {
  import opened Py
  import opened Models

  /** The serializer-class attributes a viewset may declare; `None` when
      `hasattr` is false. */
  datatype SerializerClasses<C> = SerializerClasses(
    listClass: Option<C>,
    writeClass: Option<C>,
    readClass: Option<C>)

  /** The actions that write. */
  predicate IsWriteAction(action: Option<string>) {
    action == Some("create") || action == Some("update")
    || action == Some("partial_update") || action == Some("destroy")
  }

  /** The actions that read. */
  predicate IsReadAction(action: Option<string>) {
    action == Some("list") || action == Some("retrieve")
  }

  /** `get_serializer_class`: the list class for `list`, then the write class
      for a writing action, then the read class for a reading action, and
      otherwise the class the superclass picks (`inherited`). `self.action`
      may be `None`. */
  function SerializerClass<C>(attrs: SerializerClasses<C>, action: Option<string>, inherited: C): (c: C)
    ensures action == Some("list") && attrs.listClass.Some? ==> c == attrs.listClass.value
    ensures IsWriteAction(action) && attrs.writeClass.Some? ==> c == attrs.writeClass.value
    ensures IsReadAction(action) && attrs.readClass.Some? && !(action == Some("list") && attrs.listClass.Some?) ==>
      c == attrs.readClass.value
    ensures !IsWriteAction(action) && !IsReadAction(action) ==> c == inherited
  {
    if attrs.listClass.Some? && action == Some("list") then attrs.listClass.value
    else if attrs.writeClass.Some? && IsWriteAction(action) then attrs.writeClass.value
    else if attrs.readClass.Some? && IsReadAction(action) then attrs.readClass.value
    else inherited
  }

  /** The class declared for an action, or `inherited`. */
  function Declared<C>(cls: Option<C>, inherited: C): C {
    if cls.Some? then cls.value else inherited
  }

  /** The same choice written per action: what `list`, `retrieve` and each
      writing action may end up with. */
  function ByAction<C>(attrs: SerializerClasses<C>, action: Option<string>, inherited: C): C {
    match action
    case Some("list") => Declared(attrs.listClass, Declared(attrs.readClass, inherited))
    case Some("retrieve") => Declared(attrs.readClass, inherited)
    case Some("create") => Declared(attrs.writeClass, inherited)
    case Some("update") => Declared(attrs.writeClass, inherited)
    case Some("partial_update") => Declared(attrs.writeClass, inherited)
    case Some("destroy") => Declared(attrs.writeClass, inherited)
    case _ => inherited
  }

  /** The chain of `if`s agrees with the per-action table: since no action
      both reads and writes, the order of the write and read tests does not
      matter, and only `list` can reach the list class. */
  lemma SerializerClassByAction<C>(attrs: SerializerClasses<C>, action: Option<string>, inherited: C)
    ensures SerializerClass(attrs, action, inherited) == ByAction(attrs, action, inherited)
  {
  }

  /** `paginate_queryset`: the presence of `no_page` among the query
      parameters, whatever its value, turns pagination off; otherwise the
      superclass's page (`delegated`) is returned. */
  function PaginateQueryset<P>(queryParams: map<string, seq<string>>, delegated: Option<P>): (r: Option<P>)
    ensures "no_page" in queryParams ==> r.None?
    ensures "no_page" !in queryParams ==> r == delegated
  {
    if "no_page" in queryParams then None else delegated
  }

  /** Only the parameter names matter, never their values. */
  lemma PaginateIgnoresValues<P>(a: map<string, seq<string>>, b: map<string, seq<string>>, delegated: Option<P>)
    requires a.Keys == b.Keys
    ensures PaginateQueryset(a, delegated) == PaginateQueryset(b, delegated)
  {
  }

  /** The keyword arguments `get_serializer` forwards: `many=True` is added
      exactly when the `data` argument is a list. `**kwargs` is a fresh dict
      per call, so its in-place update is a new value here. */
  function GetSerializerKwargs(kwargs: map<string, Value>): (r: map<string, Value>)
    ensures "data" in kwargs && kwargs["data"].List? ==> r.Keys == kwargs.Keys + {"many"} && r["many"] == Bool(true)
    ensures !("data" in kwargs && kwargs["data"].List?) ==> r == kwargs
    ensures forall k :: k in kwargs && k != "many" ==> k in r && r[k] == kwargs[k]
  {
    if "data" in kwargs && kwargs["data"].List? then kwargs["many" := Bool(true)] else kwargs
  }

  /** Preparing the arguments twice is preparing them once. */
  lemma GetSerializerKwargsIdempotent(kwargs: map<string, Value>)
    ensures GetSerializerKwargs(GetSerializerKwargs(kwargs)) == GetSerializerKwargs(kwargs)
  {
  }

  /** `HTTP_204_NO_CONTENT`. */
  const NoContent: int := 204

  /** A request body that `filter(id__in=...)` accepts here: a list of integers. */
  predicate IsIdList(body: Value) {
    body.List? && forall k :: 0 <= k < |body.items| ==> body.items[k].Int?
  }

  /** The ids such a body names; a negative one names no row. */
  function RequestedIds(body: Value): (s: set<nat>)
    requires IsIdList(body)
    ensures forall i: nat :: i in s <==> Int(i) in body.items
  {
    set v | v in body.items && v.i >= 0 :: v.i as nat
  }

  /** What `bulk_delete` raises when the body cannot be turned into ids. */
  datatype BulkDeleteError = InvalidIds

  /** `bulk_delete`: the viewset's queryset (`base`) narrowed to the ids of
      the request body, deleted through `SplintQuerySet.delete`, so every
      matched row is tombstoned and logged. A body that is not a list of
      integers makes the lookup raise before anything changes; otherwise the
      answer is 204, whether or not anything matched. */
  method BulkDelete(table: Table, base: QuerySet, body: Value, now: Time) returns (r: Result<int, BulkDeleteError>)
    requires table.Valid()
    modifies table
    ensures r.Ok? <==> IsIdList(body)
    ensures r.Ok? ==> r.value == NoContent
    ensures table.Valid() && table.lastId == old(table.lastId)
    ensures IsIdList(body) ==>
      && table.rows == SoftDeleteAll(old(table.rows), old(Matched(table.rows, Narrow(base, RequestedIds(body)))), now)
      && table.log == old(table.log) +
        DeletionLog(old(table.rows), old(QueryOrder(table.rows, Narrow(base, RequestedIds(body)))), now, table.modelName, table.excludeLog)
    ensures !IsIdList(body) ==> table.rows == old(table.rows) && table.log == old(table.log)
  {
    if !IsIdList(body) {
      return Err(InvalidIds);
    }
    table.QuerySetDelete(Narrow(base, RequestedIds(body)), now);
    r := Ok(NoContent);
  }

  /** After a bulk delete the requested rows the viewset could see are gone
      from `objects` and still in `objects_with_deleted`; ids outside the
      viewset's queryset are untouched. */
  lemma BulkDeleteViews(rows: map<nat, Row>, base: QuerySet, requested: set<nat>, now: Time)
    ensures var after := SoftDeleteAll(rows, Matched(rows, Narrow(base, requested)), now);
      && ViewIds(after, ObjectsWithDeleted) == ViewIds(rows, ObjectsWithDeleted)
      && ViewIds(after, Objects) !! Matched(rows, Narrow(base, requested))
      && forall i :: i in rows && i !in requested ==> after[i] == rows[i]
  {
    SoftDeleteAllViews(rows, Matched(rows, Narrow(base, requested)), now);
  }
}
