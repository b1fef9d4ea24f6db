# django-splint, modelled in Dafny

django-splint is a set of Django and Django REST framework helpers. At its
centre is a soft-delete record store: every model gets three managers
(`objects`, `deleted`, `objects_with_deleted`), every `save` writes an entry
to the `activity` log unless called with `log_activity=False`, `delete` only sets a tombstone, and `force_delete`
removes rows for real. Around it sit small rules for serializers, viewsets,
ordering filters, permissions, the SQS attribute cleaner and the Lambda
logger.

One Dafny module per source file:

- `py.dfy` (`Py`): Python values (`None`, bools, ints, strings, lists and
  ordered dicts), truthiness, `Option`/`Result`.
- `models.dfy` (`Models`): the store.
  - `Table` holds one model's rows (`map<nat, Row>`), its append-only log
    and the auto-increment counter.
  - `Instance` is an in-memory model object whose `Save`, `Delete` and
    `ForceDelete` change both the object and the table.
  - Querysets are a manager view plus an optional `id__in` filter. They
    are iterated in the `-id` order of `Meta.ordering`.
  - The user manager's argument rules are plain functions.
- `serializers.dfy` (`Serializers`):
  - field-name filtering;
  - unknown-key validation;
  - the field-trimming `SplintSerializer` class;
  - the string handling around base64 image uploads.
- `views.dfy` (`Views`):
  - serializer-class dispatch;
  - switching pagination off;
  - bulk `many=True`;
  - `bulk_delete`, which runs the store's per-row delete.
- `filters.dfy` (`Filters`): `CustomFieldOrdering.filter_queryset`, for any
  queryset type, with the callbacks and `order_by` as inputs.
- `permissions.dfy` (`Permissions`): the three `has_permission` rules.
- `sqs.dfy` (`Sqs`): the in-place message-attribute cleaner, run by
  `send_message`.
  - `Cleaned` is a declarative description of the cleaner's result, valid
    in any key order.
  - `Mid` describes a half-cleaned dict.
  - The loop is proved against these. The lemmas then describe the cleaned
    dict's keys and values and show that cleaning is idempotent.
- `logging.dfy` (`Logging`): the reshaping done by `format_extra_params`.

Conventions:
- A primary key of 0 stands for Python's `None`; `not self.id` treats the
  two alike.
- The clock, the UUID strings and `imghdr`'s answer are parameters.
- `model_to_dict` is `Snapshot`: the row's editable fields minus
  `exclude_log`.

## Model

| member | source | states |
|---|---|---|
| Models.InView | src/django_splint/db/models.py:18-47 | the filter each manager's `get_queryset` adds: `_deleted=False` for `objects`, `_deleted=True` for `deleted`, none for `objects_with_deleted` (its property: `ViewsPartition`) |
| Models.ViewIds | src/django_splint/db/models.py:18-47 | the ids a manager shows: the stored rows its filter admits (its property: `ViewsPartition`) |
| Models.ViewsPartition | src/django_splint/db/models.py:18-47 | the `objects_with_deleted` view is the whole table; `objects` and `deleted` split it between them without overlap |
| Models.GetAction | src/django_splint/db/models.py:127-138 | `created` exactly when the id is unset (even on a tombstoned instance), otherwise `deleted` exactly when the flag is set, otherwise `updated` |
| Models.Snapshot | src/django_splint/db/models.py:108-109 | the logged object is the row's fields with every `exclude_log` name removed and every other value as stored |
| Models.Columns | src/django_splint/db/models.py:35-39 | a lookup sees every column of a row: the editable fields, `created_at`, `updated_at` and `user_id` (`None` for a null key) |
| Models.Fields | src/django_splint/db/models.py:108-109 | `model_to_dict`'s editable fields of a row: its declared columns, `id`, `_deleted` and `_deleted_at`, never the two timestamps (its use: `Snapshot`) |
| Models.MatchesLookup | src/django_splint/db/models.py:35-39 | the filter `get(**kwargs)` applies: every named column of the row holds the given value (its use: `GetOrNone`) |
| Models.ActiveMatches | src/django_splint/db/models.py:35-39 | the rows of the default manager a lookup matches, never a tombstoned one (its use: `GetOrNone`) |
| Models.Narrow | src/django_splint/api/views.py:58 | `filter(id__in=ids)` keeps the view and matches exactly the ids in both the old filter and `ids` |
| Models.Matched | src/django_splint/db/models.py:50-59 | the rows a queryset matches: its manager's view narrowed by its `id__in` filter (its uses: `QueryOrder`, `QuerySetDelete`, `QuerySetForceDelete`) |
| Models.DescendingIdsSpec | src/django_splint/db/models.py:83 | the iteration order lists every matched id once and is strictly descending (`-id`) |
| Models.QueryOrder | src/django_splint/db/models.py:58 | every id a queryset yields is a stored row that the queryset matches |
| Models.SoftDeleted | src/django_splint/db/models.py:116-121 | a row after `obj.delete()`: tombstone set, `_deleted_at` and `updated_at` stamped, every other column kept (its use: `DeleteLoaded`) |
| Models.SoftDeleteAll | src/django_splint/db/models.py:51-59 | the table after a queryset deletion: matched rows soft-deleted, the others as they were (its property: `SoftDeleteAllViews`) |
| Models.SoftDeleteAllViews | src/django_splint/db/models.py:51-59 | after soft-deleting a set of rows they are gone from `objects`, present in `deleted`, and `objects_with_deleted` is unchanged |
| Models.ForceDeleteViews | src/django_splint/db/models.py:61-63 | physically removing rows takes them out of every view and leaves every other row |
| Models.DeletionEntry | src/django_splint/db/models.py:102-112 | the entry `save` logs for a loaded row that `delete` tombstoned: `deleted`, no origin, the row's user and the tombstoned snapshot (its property: `DeletionLogEntries`) |
| Models.DeletionLog | src/django_splint/db/models.py:58-59 | a queryset deletion writes exactly one entry per iterated row |
| Models.DeletionLogEntries | src/django_splint/db/models.py:58-59 | each entry of a queryset deletion says `deleted`, names the model, has no origin, and carries its own row's id and `_deleted=True` unless excluded |
| Models.Table.constructor | src/django_splint/db/models.py:66-85 | a new table of a concrete subclass is empty, with no id handed out and its name, `exclude_log`, lookup names and column defaults fixed; the declared columns never clash with the inherited ones |
| Models.Table.GetOrNone | src/django_splint/db/models.py:35-39 | `FieldError` exactly when a lookup name is not a column of the model; otherwise `None` exactly when no active row matches, the single matching row (never tombstoned) when one does, and `MultipleObjectsReturned` exactly when two or more match |
| Models.Table.Evaluate | src/django_splint/db/models.py:58 | evaluating a queryset yields its matched ids in `-id` order |
| Models.Table.QuerySetDelete | src/django_splint/db/models.py:51-59 | every matched row is tombstoned and stamped, no row is removed, others are untouched, and the log grows by one deletion entry per row in iteration order |
| Models.Table.DeleteEach | src/django_splint/db/models.py:58-59 | the loop over the iterated ids soft-deletes exactly those ids and logs each once, in order |
| Models.Table.DeleteLoaded | src/django_splint/db/models.py:59 | one `obj.delete()` tombstones that row in place and appends its deletion entry, whose user is `None` on a model without a `user_id` column |
| Models.Table.QuerySetForceDelete | src/django_splint/db/models.py:61-63 | the matched rows are removed, their number is returned, and the log is unchanged |
| Models.Instance.Save | src/django_splint/db/models.py:96-114 | the action is fixed before persisting; a new instance takes the next id; `created_at` is stamped on every INSERT (no id, or an id with no stored row, as after `force_delete`) and kept otherwise; `updated_at` is stamped; the row is written, with `user_id` stored only when the model has that column; the log grows by exactly one entry (action, origin, user, model, snapshot) when `log_activity` is true and by none otherwise |
| Models.Instance.New | src/django_splint/db/models.py:66-79 | a new instance has no primary key, no timestamps, no tombstone and `_state.adding` set; it holds every declared column, the given value where one was given and the default elsewhere, and carries the user and origin |
| Models.Instance.Load | src/django_splint/db/models.py:58 | an instance loaded from a row holds exactly that row's state, no `origin` and `_state.adding` clear |
| Models.Instance.Stored | src/django_splint/db/models.py:100-106 | the row `save` writes is the instance's state, except that `user_id` is kept only when the model has that column and is `None` otherwise |
| Models.Instance.AssignId | src/django_splint/db/models.py:100 | an unset primary key becomes the next auto-increment id; a set one is kept |
| Models.Instance.Write | src/django_splint/db/models.py:100-112 | the instance's state is stored under its id (`user_id` only when the model has that column) and one entry, carrying the instance's own `user_id`, is logged exactly when asked |
| Models.Instance.Delete | src/django_splint/db/models.py:116-121 | the flag and `_deleted_at` are set, the row stays (or is inserted, with `created_at` stamped, when there was none), and one entry is logged: `deleted` for a saved instance, `created` for a never-saved one; nothing guards a repeat call |
| Models.Instance.ForceDelete | src/django_splint/db/models.py:123-125 | `ValueError` without a primary key; otherwise the row is removed, no entry is logged and the primary key is cleared; every other attribute of the instance, `_state.adding` included, stays as it was |
| Models.SetDefault | src/django_splint/db/models.py:154-155 | `setdefault` keeps an existing value and adds the default otherwise |
| Models.CreateUser | src/django_splint/db/models.py:152-160 | `is_staff` and `is_superuser` default to `False`; a missing password becomes the first 8 characters of the UUID string |
| Models.CreateSuperuser | src/django_splint/db/models.py:162-172 | succeeds exactly when neither flag is given as anything but `True`; `is_staff` is checked first; on success both flags are `True` |
| Serializers.PublicNames | src/django_splint/api/serializers.py:20 | the kept names are exactly the input names not starting with `_` |
| Serializers.PublicNamesAppend | src/django_splint/api/serializers.py:20 | filtering distributes over concatenation, so relative order is kept |
| Serializers.PublicNamesIdempotent | src/django_splint/api/serializers.py:20 | filtering twice is filtering once |
| Serializers.PublicNamesKeepsPublic | src/django_splint/api/serializers.py:20 | a list without protected names passes unchanged |
| Serializers.GetFieldNames | src/django_splint/api/serializers.py:15-20 | the public inherited names followed by the public `extra_fields`; a name is in the result iff it is public and in one of the two |
| Serializers.PooledKeys | src/django_splint/api/serializers.py:26-27 | the pooled keys of a list payload are the keys of some element |
| Serializers.UnknownKeys | src/django_splint/api/serializers.py:24-31 | unknown keys are the payload keys, pooled over a list, that are not field names; none without `initial_data` |
| Serializers.Validate | src/django_splint/api/serializers.py:13-35 | accepted iff every unknown key is in the skip set `{csrfmiddlewaretoken}`, and then `data` comes back unchanged; the error reports all unknown keys |
| Serializers.ValidateManyIffEach | src/django_splint/api/serializers.py:25-31 | a list payload is accepted iff each of its dicts would be accepted alone |
| Serializers.ValidateDeclared | src/django_splint/api/serializers.py:30-35 | a payload of declared or skipped keys is accepted as is |
| Serializers.Restrict | src/django_splint/api/serializers.py:49-52 | the kept fields are existing ∩ allowed, each with its own field |
| Serializers.RestrictShrinks | src/django_splint/api/serializers.py:49-52 | trimming adds no field and is idempotent |
| Serializers.SplintSerializer.constructor | src/django_splint/api/serializers.py:40-52 | without `fields` the declared fields stay; with it they become declared ∩ set(fields) |
| Serializers.SplintSerializer.DropFields | src/django_splint/api/serializers.py:49-52 | popping each of existing − allowed leaves exactly existing ∩ allowed |
| Serializers.Find | src/django_splint/api/serializers.py:82 | the leftmost occurrence of a substring, or none at all |
| Serializers.Split | src/django_splint/api/serializers.py:84 | `split` yields at least one piece, no piece contains the separator, and there are two or more pieces iff the separator occurs |
| Serializers.JoinSplit | src/django_splint/api/serializers.py:84 | joining the pieces with the separator gives the string back |
| Serializers.SplitMoreThanTwo | src/django_splint/api/serializers.py:84 | more than two pieces iff the separator occurs twice without overlap |
| Serializers.StripHeader | src/django_splint/api/serializers.py:80-84 | a string without both `data:` and `;base64,` is decoded whole; with them, only the text after the marker is kept (a marker-free suffix of the input); a second marker raises the unpacking `ValueError` |
| Serializers.HasHeader | src/django_splint/api/serializers.py:82 | the test for a `data:` URL: both `data:` and `;base64,` occur somewhere in the string (its use: `StripHeader`) |
| Serializers.FileExtension | src/django_splint/api/serializers.py:103-110 | `jpeg` becomes `jpg`; every other answer, `None` included, is returned unchanged |
| Serializers.FileExtensionNormal | src/django_splint/api/serializers.py:108 | the mapping never answers `jpeg` and is idempotent |
| Serializers.CompleteFileName | src/django_splint/api/serializers.py:93-97 | the file name is the first 12 characters of the UUID string, a dot and the extension (`None` when undetected) |
| Views.IsWriteAction | src/django_splint/api/views.py:15-16 | the actions `create`, `update`, `partial_update` and `destroy` (its use: `SerializerClass`) |
| Views.IsReadAction | src/django_splint/api/views.py:19 | the actions `list` and `retrieve` (its use: `SerializerClass`) |
| Views.SerializerClass | src/django_splint/api/views.py:10-21 | `list` with a list class gets it (before the read class); a writing action with a write class gets it; `list`/`retrieve` with a read class and no earlier match get it; any other action gets the inherited class |
| Views.SerializerClassByAction | src/django_splint/api/views.py:10-21 | the chain of tests equals a per-action table |
| Views.PaginateQueryset | src/django_splint/api/views.py:23-27 | `None` whenever `no_page` is a query parameter, otherwise the superclass's page |
| Views.PaginateIgnoresValues | src/django_splint/api/views.py:25 | only the parameter names matter, never their values |
| Views.GetSerializerKwargs | src/django_splint/api/views.py:43-48 | `many=True` is added exactly when `data` is a list; every other argument is forwarded untouched (same code in `src/django_splint/api/serializers.py` lines 58-63) |
| Views.GetSerializerKwargsIdempotent | src/django_splint/api/views.py:45-46 | preparing the arguments twice is preparing them once |
| Views.IsIdList | src/django_splint/api/views.py:58 | a body the `id__in` lookup takes as ids here: a list whose every element is an integer (its use: `BulkDelete`) |
| Views.RequestedIds | src/django_splint/api/views.py:58 | the ids of a list-of-integers body are exactly its non-negative integers |
| Views.BulkDelete | src/django_splint/api/views.py:54-59 | a body that is not a list of integers raises and changes nothing; otherwise the base queryset narrowed to the requested ids is soft-deleted row by row with one log entry each, and the answer is 204 whether or not anything matched |
| Views.BulkDeleteViews | src/django_splint/api/views.py:58 | afterwards the matched rows are out of `objects`, the all-view is unchanged, and unrequested rows are untouched |
| Filters.RemoveOrder | src/django_splint/api/filters.py:16-19 | a leading `-` is removed; any other term is unchanged |
| Filters.RemoveOrderOnce | src/django_splint/api/filters.py:16-19 | exactly one `-` is removed, so `--x` becomes `-x` |
| Filters.CustomFields | src/django_splint/api/filters.py:21-25 | every selected field is a custom ordering key coming from some term, and every term naming one is selected |
| Filters.CustomFieldsAppend | src/django_splint/api/filters.py:21-25 | the selection keeps ordering order |
| Filters.CustomFieldsKeepsDuplicates | src/django_splint/api/filters.py:21-25 | `x` and `-x` both select `x` |
| Filters.ApplyAll | src/django_splint/api/filters.py:27-28 | the reference fold: each selected field's callback applied to the queryset in turn, first field first (its properties: `ApplyAllAppend`, `NoCustomNoCallback`, `FilterQueryset`) |
| Filters.ApplyAllAppend | src/django_splint/api/filters.py:27-28 | applying two callback lists in turn is applying their concatenation |
| Filters.NoCustomNoCallback | src/django_splint/api/filters.py:21-28 | an ordering naming no custom field applies no callback |
| Filters.FilterQueryset | src/django_splint/api/filters.py:11-32 | an empty or missing ordering returns the queryset unchanged; otherwise the custom callbacks run in selection order and `order_by` gets the original terms |
| Permissions.Authenticated | src/django_splint/api/permissions.py:11 | `request.user and request.user.is_authenticated`: a user is present and authenticated (its use: `AdminOrReadOnlyDecomposed`) |
| Permissions.AdminOrReadOnly | src/django_splint/api/permissions.py:8-15 | `IsAdminUserOrReadOnlyAuthenticated`: an authenticated user with a safe method or staff status (its properties: `AdminOrReadOnlyDecomposed`, `ReadOnlyForNonStaff`) |
| Permissions.AdminAuthenticated | src/django_splint/api/permissions.py:21-26 | `IsAdminUserAuthenticated`: an authenticated staff user, whatever the method |
| Permissions.WorkflowExternal | src/django_splint/api/permissions.py:30-33 | `WorkflowExternalAuthenticated`: the `workflow_token` query value, `None` when absent, equals the setting; the user plays no part (its property: `WorkflowUnset`) |
| Permissions.AdminOrReadOnlyDecomposed | src/django_splint/api/permissions.py:8-26 | read-only-or-admin holds iff admin holds or an authenticated user uses a safe method; so admin implies it, and no unauthenticated request passes either |
| Permissions.ReadOnlyForNonStaff | src/django_splint/api/permissions.py:10-15 | an authenticated non-staff user passes exactly for safe methods and never passes the admin rule |
| Permissions.WorkflowUnset | src/django_splint/api/permissions.py:30-33 | with no token configured, only a request without a token passes |
| Sqs.Upper | src/django_splint/utils/aws/sqs.py:34 | `upper` on one character: an ASCII lower-case letter becomes its capital, any other character is unchanged |
| Sqs.Cap | src/django_splint/utils/aws/sqs.py:34 | `subk[:1].upper() + subk[1:]`: same length, first character upper-cased, the rest unchanged, and the empty key stays empty |
| Sqs.CapIdempotent | src/django_splint/utils/aws/sqs.py:32-35 | capitalising twice is capitalising once, and never yields a lower-case first letter |
| Sqs.CapPreimage | src/django_splint/utils/aws/sqs.py:32-35 | only a key and its lower-case twin capitalise to the same key |
| Sqs.Step | src/django_splint/utils/aws/sqs.py:30-35 | one inner iteration on the dict's contents: a falsy entry is deleted, a truthy one is popped and stored under its capitalised key (its properties: `MidStep`, `StepWellFormed`) |
| Sqs.StepKeys | src/django_splint/utils/aws/sqs.py:30-35 | the key order after one iteration: the key leaves, and its capitalised form is appended unless already present (its property: `StepWellFormed`) |
| Sqs.Cleaned | src/django_splint/utils/aws/sqs.py:28-35 | the declarative result of the inner loop, independent of key order (its properties: `CleanedKeys`, `CleanedValues`, `CleanedIdempotent`, `CleanInner`) |
| Sqs.MidStep | src/django_splint/utils/aws/sqs.py:28-35 | one inner iteration (delete if falsy, else pop and store under the capitalised key) takes the half-cleaned dict for processed keys P to the one for P plus the key |
| Sqs.CleanedKeys | src/django_splint/utils/aws/sqs.py:28-35 | the cleaned keys are exactly the capitalised forms of the keys that had a truthy value |
| Sqs.CleanedValues | src/django_splint/utils/aws/sqs.py:28-35 | every cleaned value is truthy under a capitalised key; a moved key keeps its value; an already capitalised key keeps its value unless its lower-case twin was truthy, whose value then wins in either order |
| Sqs.CleanedIdempotent | src/django_splint/utils/aws/sqs.py:23-35 | cleaning a cleaned dict changes nothing |
| Sqs.StepWellFormed | src/django_splint/utils/aws/sqs.py:31-35 | each iteration keeps the dict's key order consistent and never grows it |
| Sqs.CleanInner | src/django_splint/utils/aws/sqs.py:28-35 | the inner loop over a snapshot of the keys leaves exactly the cleaned dict, well formed and no larger than before |
| Sqs.Attributes.Clean | src/django_splint/utils/aws/sqs.py:23-35 | the outer keys and their order stay; each dict value is replaced by its cleaned form; every other value is untouched |
| Sqs.Attributes.CleanAt | src/django_splint/utils/aws/sqs.py:26-35 | one outer iteration cleans the value under that key when it is a dict |
| Sqs.SendMessage | src/django_splint/utils/aws/sqs.py:16-21 | cleaning happens exactly when the attributes are present and non-empty; otherwise they are untouched |
| Logging.Merged | src/django_splint/utils/aws/function/logging.py:12-13 | the merged extra has the keys of both, and the keyword arguments win |
| Logging.PopOr | src/django_splint/utils/aws/function/logging.py:14-16 | `extra.pop(key, default)`'s answer: the merged value when the key is present, else the default string (its use: `FormatCall`) |
| Logging.FormatCall | src/django_splint/utils/aws/function/logging.py:9-29 | `msg` and args pass through; `stacklevel` defaults to 4; `data` is the merged extra minus `module`/`clazz`/`method`; missing reserved keys get `module_undefined`/`class_undefined`/`method_undefined` |
| Logging.Wrapper | src/django_splint/utils/aws/function/logging.py:9-29 | the decorated method calls the wrapped one once, with the call `FormatCall` describes, and returns its result as it is |
| Logging.FormatCallLossless | src/django_splint/utils/aws/function/logging.py:12-26 | the reserved slots and `data` together give back the merged extra; keyword arguments beat `extra` |
| Logging.FormatCallDefaults | src/django_splint/utils/aws/function/logging.py:12-25 | with no `extra` and no keyword arguments the call carries the three defaults and an empty `data` |

## Left out

- Persistence, transactions and concurrency are not modelled. The table is
  a map and last-write-wins is the storage layer's.
- The clock is one `now` parameter per call. `auto_now`, `auto_now_add` and
  `datetime.utcnow()` read it alike. Timezone handling
  (`src/django_splint/db/models.py` lines 119-120) is not modelled.
- `model_to_dict` is a foreign call. `Snapshot` takes the row's own fields
  plus `id`, `_deleted` and `_deleted_at` as the editable fields.
- Lookups in `get`/`get_or_none` are equality on column values, with a
  `FieldError` for a name outside `BaseColumns` and the table's
  `fieldNames`. Django's lookup language (`__in`, `__gte`, …), the `pk`
  alias, lookups across relations (`user__email=…`) and value coercion
  (`id="3"`) are not modelled.
- `Snapshot` takes a `user` foreign key from the row's `data`, where
  `model_to_dict` puts the `user_id` value. The model does not force that
  entry to agree with `Row.userId`.
- `Models.Table.QuerySetDelete`: every row of one queryset deletion gets the
  same `now` for `_deleted_at` and `updated_at`; the source reads the clock
  afresh for each row and each field.
- `Models.QuerySet`: a queryset is always iterated in the `Meta.ordering`
  order `-id`. A viewset queryset with its own `order_by` would log its
  deletions in that other order, which is not modelled.
- `Views.BulkDelete`: every body other than a list of integers is taken to
  make the lookup raise. Django's coercion of numeric strings, of booleans
  and of a dict body's keys into ids is not modelled, nor the dropping of
  `None` elements (`[1, null]` deletes row 1 and answers 204) and the
  truncation of floats (`1.5` names row 1).
- `SplintUserManager.get_or_none` (`src/django_splint/db/models.py` lines
  174-179) is not modelled: the user model and its manager are outside the
  store. `_create_user`'s `normalize_email`, password hashing and save are
  foreign calls; the model stops at the arguments it receives.
- `QuerySetForceDelete` and `Instance.ForceDelete` return only the count.
  Django also returns a per-model breakdown. Cascades to related models are
  not modelled.
- The Django/DRF superclass behaviour is input, not model:
  `super().get_field_names`, the default serializer class,
  `super().paginate_queryset`, `get_ordering`, `SAFE_METHODS`, and the
  forwarded `get_serializer` call.
- `Serializers.GetFieldNames`: `fields += extra_fields` extends in place
  the list the superclass returns, which for a list `Meta.fields` is that
  attribute itself, so each further call appends `extra_fields` again; a
  tuple `fields` with a list `extra_fields` raises `TypeError`. The model
  takes each call on fresh values.
- `Serializers.Validate`: a list payload holding an element that is not a
  dict, and a payload that is neither dict nor list, raise
  `AttributeError` in the source. `InitialData` holds only key sets, so
  those payloads are not modelled.
- `Models.Instance.Save`: the `*args, **kwargs` it forwards to Django's
  `Model.save` are not modelled. `update_fields=[]` writes nothing while the
  entry is still logged; a non-empty `update_fields` writes only those
  columns and leaves `updated_at` unstamped unless listed; `force_insert`
  inserts even with a set id; `force_update`, and `update_fields` on an id
  with no row, raise `DatabaseError`; `using` picks another database. The
  model is the call without them.
- `Models.Instance.New`: Django raises `TypeError` for a keyword that is not
  a field; the constructor instead requires the given fields to be
  declared columns. It also refuses keywords Django accepts: `id`,
  `_deleted`, `_deleted_at`, `created_at`, `updated_at` and `user_id`
  (passed separately as `userId`). Callers set those on the instance's
  public fields after `New`.
- `Models.Instance.AssignId`: saving an explicit id above the counter moves
  the counter up to it, as SQLite and MySQL auto-increment keys do. A
  PostgreSQL sequence does not move, so a later new instance could collide
  with that id; the model assumes the first kind of backend.
- `Views.GetSerializerKwargs`: `**kwargs` is a fresh dict on every call, so
  its in-place update is modelled as a new value.
- `Serializers.SplintSerializer.DropFields`: the field dict's key order is
  not modelled.
- Base64 decoding, the `invalid_image` failure, `imghdr` detection,
  `ContentFile` and the DRF `ImageField` chain are foreign calls. Only the
  string and mapping logic around them is modelled.
- `Sqs.Attributes.Clean`: the order of the keys left in an inner dict is
  kept consistent but not specified.
- `Sqs.Attributes.Clean`: inner dicts are values in the model. If the same
  dict object sits under two outer keys, Python cleans it twice. A second
  clean of a cleaned dict changes nothing (`Sqs.CleanedIdempotent`), so the
  contents are the same.
- `Sqs.SendMessage`: a truthy `MessageAttributes` that is not a dict is not
  modelled. The boto3 client call is not modelled either.
- `Upper` capitalises ASCII letters only. Python's `str.upper` also maps
  other Unicode letters, and can map one character to several.
- `Logging.FormatCall`: the insertion order of the `data` dict is not
  modelled. The wrapped powertools logger methods are the `func` parameter
  of `Wrapper`.
- `options.DEFAULT_NAMES` and `__post_init__`
  (`src/django_splint/db/models.py` lines 12-13 and 87-94) are not modelled.
  The first is framework wiring; nothing calls the second.
- These files are not part of this model:
  - `src/django_splint/utils/decorators.py`: cache service and JSON parsing.
  - `src/django_splint/db/fields.py`: image I/O and floating-point resizing.
  - Firebase, ECS and task helpers.
  - `src/django_splint/admin.py` and `src/django_splint/api/authentication.py`.
  - The admin's origin tag appears only as the `origin` input of an
    instance.
